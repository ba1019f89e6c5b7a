/** A known answer of the Data Encryption Standard, step by step: what
    tools/limbs/rfb_probe.py:97-124 makes of one block under one key. */
module DesAnswers {
  import opened Des
  import opened DesDigits
  import opened DesTables

  // ---------------------------------------------------------------- the numbers

  const LEFT0 := [XF, X0, XC, XC, XA, XA, XF]
  const RIGHT0 := [X5, X5, X6, X6, X7, X8, XF]
  const LEFT1 := [XE, X1, X9, X9, X5, X5, XF]
  const RIGHT1 := [XA, XA, XC, XC, XF, X1, XE]
  const LEFT2 := [XC, X3, X3, X2, XA, XB, XF]
  const RIGHT2 := [X5, X5, X9, X9, XE, X3, XD]
  const LEFT3 := [X0, XC, XC, XA, XA, XF, XF]
  const RIGHT3 := [X5, X6, X6, X7, X8, XF, X5]
  const LEFT4 := [X3, X3, X2, XA, XB, XF, XC]
  const RIGHT4 := [X5, X9, X9, XE, X3, XD, X5]
  const LEFT5 := [XC, XC, XA, XA, XF, XF, X0]
  const RIGHT5 := [X6, X6, X7, X8, XF, X5, X5]
  const LEFT6 := [X3, X2, XA, XB, XF, XC, X3]
  const RIGHT6 := [X9, X9, XE, X3, XD, X5, X5]
  const LEFT7 := [XC, XA, XA, XF, XF, X0, XC]
  const RIGHT7 := [X6, X7, X8, XF, X5, X5, X6]
  const LEFT8 := [X2, XA, XB, XF, XC, X3, X3]
  const RIGHT8 := [X9, XE, X3, XD, X5, X5, X9]
  const LEFT9 := [X5, X5, X7, XF, X8, X6, X6]
  const RIGHT9 := [X3, XC, X7, XA, XA, XB, X3]
  const LEFT10 := [X5, X5, XF, XE, X1, X9, X9]
  const RIGHT10 := [XF, X1, XE, XA, XA, XC, XC]
  const LEFT11 := [X5, X7, XF, X8, X6, X6, X5]
  const RIGHT11 := [XC, X7, XA, XA, XB, X3, X3]
  const LEFT12 := [X5, XF, XE, X1, X9, X9, X5]
  const RIGHT12 := [X1, XE, XA, XA, XC, XC, XF]
  const LEFT13 := [X7, XF, X8, X6, X6, X5, X5]
  const RIGHT13 := [X7, XA, XA, XB, X3, X3, XC]
  const LEFT14 := [XF, XE, X1, X9, X9, X5, X5]
  const RIGHT14 := [XE, XA, XA, XC, XC, XF, X1]
  const LEFT15 := [XF, X8, X6, X6, X5, X5, X7]
  const RIGHT15 := [XA, XA, XB, X3, X3, XC, X7]
  const LEFT16 := [XF, X0, XC, XC, XA, XA, XF]
  const RIGHT16 := [X5, X5, X6, X6, X7, X8, XF]

  const KEY1 := [Six(0, 0, 0, 1, 1, 0), Six(1, 1, 0, 0, 0, 0), Six(0, 0, 1, 0, 1, 1), Six(1, 0, 1, 1, 1, 1),
    Six(1, 1, 1, 1, 1, 1), Six(0, 0, 0, 1, 1, 1), Six(0, 0, 0, 0, 0, 1), Six(1, 1, 0, 0, 1, 0)]
  const KEY2 := [Six(0, 1, 1, 1, 1, 0), Six(0, 1, 1, 0, 1, 0), Six(1, 1, 1, 0, 1, 1), Six(0, 1, 1, 0, 0, 1),
    Six(1, 1, 0, 1, 1, 0), Six(1, 1, 1, 1, 0, 0), Six(1, 0, 0, 1, 1, 1), Six(1, 0, 0, 1, 0, 1)]
  const KEY3 := [Six(0, 1, 0, 1, 0, 1), Six(0, 1, 1, 1, 1, 1), Six(1, 1, 0, 0, 1, 0), Six(0, 0, 1, 0, 1, 0),
    Six(0, 1, 0, 0, 0, 0), Six(1, 0, 1, 1, 0, 0), Six(1, 1, 1, 1, 1, 0), Six(0, 1, 1, 0, 0, 1)]
  const KEY4 := [Six(0, 1, 1, 1, 0, 0), Six(1, 0, 1, 0, 1, 0), Six(1, 1, 0, 1, 1, 1), Six(0, 1, 0, 1, 1, 0),
    Six(1, 1, 0, 1, 1, 0), Six(1, 1, 0, 0, 1, 1), Six(0, 1, 0, 1, 0, 0), Six(0, 1, 1, 1, 0, 1)]
  const KEY5 := [Six(0, 1, 1, 1, 1, 1), Six(0, 0, 1, 1, 1, 0), Six(1, 1, 0, 0, 0, 0), Six(0, 0, 0, 1, 1, 1),
    Six(1, 1, 1, 0, 1, 0), Six(1, 1, 0, 1, 0, 1), Six(0, 0, 1, 1, 1, 0), Six(1, 0, 1, 0, 0, 0)]
  const KEY6 := [Six(0, 1, 1, 0, 0, 0), Six(1, 1, 1, 0, 1, 0), Six(0, 1, 0, 1, 0, 0), Six(1, 1, 1, 1, 1, 0),
    Six(0, 1, 0, 1, 0, 0), Six(0, 0, 0, 1, 1, 1), Six(1, 0, 1, 1, 0, 0), Six(1, 0, 1, 1, 1, 1)]
  const KEY7 := [Six(1, 1, 1, 0, 1, 1), Six(0, 0, 1, 0, 0, 0), Six(0, 1, 0, 0, 1, 0), Six(1, 1, 0, 1, 1, 1),
    Six(1, 1, 1, 1, 0, 1), Six(1, 0, 0, 0, 0, 1), Six(1, 0, 0, 0, 1, 0), Six(1, 1, 1, 1, 0, 0)]
  const KEY8 := [Six(1, 1, 1, 1, 0, 1), Six(1, 1, 1, 0, 0, 0), Six(1, 0, 1, 0, 0, 0), Six(1, 1, 1, 0, 1, 0),
    Six(1, 1, 0, 0, 0, 0), Six(0, 1, 0, 0, 1, 1), Six(1, 0, 1, 1, 1, 1), Six(1, 1, 1, 0, 1, 1)]
  const KEY9 := [Six(1, 1, 1, 0, 0, 0), Six(0, 0, 1, 1, 0, 1), Six(1, 0, 1, 1, 1, 1), Six(1, 0, 1, 0, 1, 1),
    Six(1, 1, 1, 0, 1, 1), Six(0, 1, 1, 1, 1, 0), Six(0, 1, 1, 1, 1, 0), Six(0, 0, 0, 0, 0, 1)]
  const KEY10 := [Six(1, 0, 1, 1, 0, 0), Six(0, 1, 1, 1, 1, 1), Six(0, 0, 1, 1, 0, 1), Six(0, 0, 0, 1, 1, 1),
    Six(1, 0, 1, 1, 1, 0), Six(1, 0, 0, 1, 0, 0), Six(0, 1, 1, 0, 0, 1), Six(0, 0, 1, 1, 1, 1)]
  const KEY11 := [Six(0, 0, 1, 0, 0, 0), Six(0, 1, 0, 1, 0, 1), Six(1, 1, 1, 1, 1, 1), Six(0, 1, 0, 0, 1, 1),
    Six(1, 1, 0, 1, 1, 1), Six(1, 0, 1, 1, 0, 1), Six(0, 0, 1, 1, 1, 0), Six(0, 0, 0, 1, 1, 0)]
  const KEY12 := [Six(0, 1, 1, 1, 0, 1), Six(0, 1, 0, 1, 1, 1), Six(0, 0, 0, 1, 1, 1), Six(1, 1, 0, 1, 0, 1),
    Six(1, 0, 0, 1, 0, 1), Six(0, 0, 0, 1, 1, 0), Six(0, 1, 1, 1, 1, 1), Six(1, 0, 1, 0, 0, 1)]
  const KEY13 := [Six(1, 0, 0, 1, 0, 1), Six(1, 1, 1, 1, 0, 0), Six(0, 1, 0, 1, 1, 1), Six(0, 1, 0, 0, 0, 1),
    Six(1, 1, 1, 1, 1, 0), Six(1, 0, 1, 0, 1, 1), Six(1, 0, 1, 0, 0, 1), Six(0, 0, 0, 0, 0, 1)]
  const KEY14 := [Six(0, 1, 0, 1, 1, 1), Six(1, 1, 0, 1, 0, 0), Six(0, 0, 1, 1, 1, 0), Six(1, 1, 0, 1, 1, 1),
    Six(1, 1, 1, 1, 0, 0), Six(1, 0, 1, 1, 1, 0), Six(0, 1, 1, 1, 0, 0), Six(1, 1, 1, 0, 1, 0)]
  const KEY15 := [Six(1, 0, 1, 1, 1, 1), Six(1, 1, 1, 0, 0, 1), Six(0, 0, 0, 1, 1, 0), Six(0, 0, 1, 1, 0, 1),
    Six(0, 0, 1, 1, 1, 1), Six(0, 1, 0, 0, 1, 1), Six(1, 1, 1, 1, 0, 0), Six(0, 0, 1, 0, 1, 0)]
  const KEY16 := [Six(1, 1, 0, 0, 1, 0), Six(1, 1, 0, 0, 1, 1), Six(1, 1, 0, 1, 1, 0), Six(0, 0, 1, 0, 1, 1),
    Six(0, 0, 0, 0, 1, 1), Six(1, 0, 0, 0, 0, 1), Six(0, 1, 1, 1, 1, 1), Six(1, 1, 0, 1, 0, 1)]
  const HALF0 := [XC, XC, X0, X0, XC, XC, XF, XF]
  const HALF1 := [XF, X0, XA, XA, XF, X0, XA, XA]
  const HALF2 := [XE, XF, X4, XA, X6, X5, X4, X4]
  const HALF3 := [XC, XC, X0, X1, X7, X7, X0, X9]
  const HALF4 := [XA, X2, X5, XC, X0, XB, XF, X4]
  const HALF5 := [X7, X7, X2, X2, X0, X0, X4, X5]
  const HALF6 := [X8, XA, X4, XF, XA, X6, X3, X7]
  const HALF7 := [XE, X9, X6, X7, XC, XD, X6, X9]
  const HALF8 := [X0, X6, X4, XA, XB, XA, X1, X0]
  const HALF9 := [XD, X5, X6, X9, X4, XB, X9, X0]
  const HALF10 := [X2, X4, X7, XC, XC, X6, X7, XA]
  const HALF11 := [XB, X7, XD, X5, XD, X7, XB, X2]
  const HALF12 := [XC, X5, X7, X8, X3, XC, X7, X8]
  const HALF13 := [X7, X5, XB, XD, X1, X8, X5, X8]
  const HALF14 := [X1, X8, XC, X3, X1, X5, X5, XA]
  const HALF15 := [XC, X2, X8, XC, X9, X6, X0, XD]
  const HALF16 := [X4, X3, X4, X2, X3, X2, X3, X4]
  const HALF17 := [X0, XA, X4, XC, XD, X9, X9, X5]

  const KEYS := [KEY1, KEY2, KEY3, KEY4, KEY5, KEY6, KEY7, KEY8,
    KEY9, KEY10, KEY11, KEY12, KEY13, KEY14, KEY15, KEY16]

  /** The first `n` round keys. */
  function AllKeys(n: nat): (keys: seq<RoundKey>)
    requires n <= 16
    ensures |keys| == n
  {
    if n == 0 then [] else AllKeys(n - 1) + [SpelledKey(KEYS[n - 1])]
  }

  lemma Turns1()
    ensures |SHIFTS| == 16 && (SHIFTS[0] == 1 || SHIFTS[0] == 2)
    ensures Turned(LEFT0, SHIFTS[0]) == LEFT1 && Turned(RIGHT0, SHIFTS[0]) == RIGHT1
  {
  }

  lemma Picks1()
    ensures Picked(LEFT1, RIGHT1, KEY1)
  {
  }

  lemma Key1(key: Block)
    requires Scheduled(key, 0, LEFT0, RIGHT0, AllKeys(0))
    ensures Scheduled(key, 1, LEFT1, RIGHT1, AllKeys(1))
  {
    hide Scheduled, Spelled, SpelledKey, Turned, Picked;
    Turns1();
    Picks1();
    KeyIs(key, 0, LEFT0, RIGHT0, AllKeys(0), LEFT1, RIGHT1, KEY1);
  }

  lemma Turns2()
    ensures |SHIFTS| == 16 && (SHIFTS[1] == 1 || SHIFTS[1] == 2)
    ensures Turned(LEFT1, SHIFTS[1]) == LEFT2 && Turned(RIGHT1, SHIFTS[1]) == RIGHT2
  {
  }

  lemma Picks2()
    ensures Picked(LEFT2, RIGHT2, KEY2)
  {
  }

  lemma Key2(key: Block)
    requires Scheduled(key, 1, LEFT1, RIGHT1, AllKeys(1))
    ensures Scheduled(key, 2, LEFT2, RIGHT2, AllKeys(2))
  {
    hide Scheduled, Spelled, SpelledKey, Turned, Picked;
    Turns2();
    Picks2();
    KeyIs(key, 1, LEFT1, RIGHT1, AllKeys(1), LEFT2, RIGHT2, KEY2);
  }

  lemma Turns3()
    ensures |SHIFTS| == 16 && (SHIFTS[2] == 1 || SHIFTS[2] == 2)
    ensures Turned(LEFT2, SHIFTS[2]) == LEFT3 && Turned(RIGHT2, SHIFTS[2]) == RIGHT3
  {
  }

  lemma Picks3()
    ensures Picked(LEFT3, RIGHT3, KEY3)
  {
  }

  lemma Key3(key: Block)
    requires Scheduled(key, 2, LEFT2, RIGHT2, AllKeys(2))
    ensures Scheduled(key, 3, LEFT3, RIGHT3, AllKeys(3))
  {
    hide Scheduled, Spelled, SpelledKey, Turned, Picked;
    Turns3();
    Picks3();
    KeyIs(key, 2, LEFT2, RIGHT2, AllKeys(2), LEFT3, RIGHT3, KEY3);
  }

  lemma Turns4()
    ensures |SHIFTS| == 16 && (SHIFTS[3] == 1 || SHIFTS[3] == 2)
    ensures Turned(LEFT3, SHIFTS[3]) == LEFT4 && Turned(RIGHT3, SHIFTS[3]) == RIGHT4
  {
  }

  lemma Picks4()
    ensures Picked(LEFT4, RIGHT4, KEY4)
  {
  }

  lemma Key4(key: Block)
    requires Scheduled(key, 3, LEFT3, RIGHT3, AllKeys(3))
    ensures Scheduled(key, 4, LEFT4, RIGHT4, AllKeys(4))
  {
    hide Scheduled, Spelled, SpelledKey, Turned, Picked;
    Turns4();
    Picks4();
    KeyIs(key, 3, LEFT3, RIGHT3, AllKeys(3), LEFT4, RIGHT4, KEY4);
  }

  lemma Turns5()
    ensures |SHIFTS| == 16 && (SHIFTS[4] == 1 || SHIFTS[4] == 2)
    ensures Turned(LEFT4, SHIFTS[4]) == LEFT5 && Turned(RIGHT4, SHIFTS[4]) == RIGHT5
  {
  }

  lemma Picks5()
    ensures Picked(LEFT5, RIGHT5, KEY5)
  {
  }

  lemma Key5(key: Block)
    requires Scheduled(key, 4, LEFT4, RIGHT4, AllKeys(4))
    ensures Scheduled(key, 5, LEFT5, RIGHT5, AllKeys(5))
  {
    hide Scheduled, Spelled, SpelledKey, Turned, Picked;
    Turns5();
    Picks5();
    KeyIs(key, 4, LEFT4, RIGHT4, AllKeys(4), LEFT5, RIGHT5, KEY5);
  }

  lemma Turns6()
    ensures |SHIFTS| == 16 && (SHIFTS[5] == 1 || SHIFTS[5] == 2)
    ensures Turned(LEFT5, SHIFTS[5]) == LEFT6 && Turned(RIGHT5, SHIFTS[5]) == RIGHT6
  {
  }

  lemma Picks6()
    ensures Picked(LEFT6, RIGHT6, KEY6)
  {
  }

  lemma Key6(key: Block)
    requires Scheduled(key, 5, LEFT5, RIGHT5, AllKeys(5))
    ensures Scheduled(key, 6, LEFT6, RIGHT6, AllKeys(6))
  {
    hide Scheduled, Spelled, SpelledKey, Turned, Picked;
    Turns6();
    Picks6();
    KeyIs(key, 5, LEFT5, RIGHT5, AllKeys(5), LEFT6, RIGHT6, KEY6);
  }

  lemma Turns7()
    ensures |SHIFTS| == 16 && (SHIFTS[6] == 1 || SHIFTS[6] == 2)
    ensures Turned(LEFT6, SHIFTS[6]) == LEFT7 && Turned(RIGHT6, SHIFTS[6]) == RIGHT7
  {
  }

  lemma Picks7()
    ensures Picked(LEFT7, RIGHT7, KEY7)
  {
  }

  lemma Key7(key: Block)
    requires Scheduled(key, 6, LEFT6, RIGHT6, AllKeys(6))
    ensures Scheduled(key, 7, LEFT7, RIGHT7, AllKeys(7))
  {
    hide Scheduled, Spelled, SpelledKey, Turned, Picked;
    Turns7();
    Picks7();
    KeyIs(key, 6, LEFT6, RIGHT6, AllKeys(6), LEFT7, RIGHT7, KEY7);
  }

  lemma Turns8()
    ensures |SHIFTS| == 16 && (SHIFTS[7] == 1 || SHIFTS[7] == 2)
    ensures Turned(LEFT7, SHIFTS[7]) == LEFT8 && Turned(RIGHT7, SHIFTS[7]) == RIGHT8
  {
  }

  lemma Picks8()
    ensures Picked(LEFT8, RIGHT8, KEY8)
  {
  }

  lemma Key8(key: Block)
    requires Scheduled(key, 7, LEFT7, RIGHT7, AllKeys(7))
    ensures Scheduled(key, 8, LEFT8, RIGHT8, AllKeys(8))
  {
    hide Scheduled, Spelled, SpelledKey, Turned, Picked;
    Turns8();
    Picks8();
    KeyIs(key, 7, LEFT7, RIGHT7, AllKeys(7), LEFT8, RIGHT8, KEY8);
  }

  lemma Turns9()
    ensures |SHIFTS| == 16 && (SHIFTS[8] == 1 || SHIFTS[8] == 2)
    ensures Turned(LEFT8, SHIFTS[8]) == LEFT9 && Turned(RIGHT8, SHIFTS[8]) == RIGHT9
  {
  }

  lemma Picks9()
    ensures Picked(LEFT9, RIGHT9, KEY9)
  {
  }

  lemma Key9(key: Block)
    requires Scheduled(key, 8, LEFT8, RIGHT8, AllKeys(8))
    ensures Scheduled(key, 9, LEFT9, RIGHT9, AllKeys(9))
  {
    hide Scheduled, Spelled, SpelledKey, Turned, Picked;
    Turns9();
    Picks9();
    KeyIs(key, 8, LEFT8, RIGHT8, AllKeys(8), LEFT9, RIGHT9, KEY9);
  }

  lemma Turns10()
    ensures |SHIFTS| == 16 && (SHIFTS[9] == 1 || SHIFTS[9] == 2)
    ensures Turned(LEFT9, SHIFTS[9]) == LEFT10 && Turned(RIGHT9, SHIFTS[9]) == RIGHT10
  {
  }

  lemma Picks10()
    ensures Picked(LEFT10, RIGHT10, KEY10)
  {
  }

  lemma Key10(key: Block)
    requires Scheduled(key, 9, LEFT9, RIGHT9, AllKeys(9))
    ensures Scheduled(key, 10, LEFT10, RIGHT10, AllKeys(10))
  {
    hide Scheduled, Spelled, SpelledKey, Turned, Picked;
    Turns10();
    Picks10();
    KeyIs(key, 9, LEFT9, RIGHT9, AllKeys(9), LEFT10, RIGHT10, KEY10);
  }

  lemma Turns11()
    ensures |SHIFTS| == 16 && (SHIFTS[10] == 1 || SHIFTS[10] == 2)
    ensures Turned(LEFT10, SHIFTS[10]) == LEFT11 && Turned(RIGHT10, SHIFTS[10]) == RIGHT11
  {
  }

  lemma Picks11()
    ensures Picked(LEFT11, RIGHT11, KEY11)
  {
  }

  lemma Key11(key: Block)
    requires Scheduled(key, 10, LEFT10, RIGHT10, AllKeys(10))
    ensures Scheduled(key, 11, LEFT11, RIGHT11, AllKeys(11))
  {
    hide Scheduled, Spelled, SpelledKey, Turned, Picked;
    Turns11();
    Picks11();
    KeyIs(key, 10, LEFT10, RIGHT10, AllKeys(10), LEFT11, RIGHT11, KEY11);
  }

  lemma Turns12()
    ensures |SHIFTS| == 16 && (SHIFTS[11] == 1 || SHIFTS[11] == 2)
    ensures Turned(LEFT11, SHIFTS[11]) == LEFT12 && Turned(RIGHT11, SHIFTS[11]) == RIGHT12
  {
  }

  lemma Picks12()
    ensures Picked(LEFT12, RIGHT12, KEY12)
  {
  }

  lemma Key12(key: Block)
    requires Scheduled(key, 11, LEFT11, RIGHT11, AllKeys(11))
    ensures Scheduled(key, 12, LEFT12, RIGHT12, AllKeys(12))
  {
    hide Scheduled, Spelled, SpelledKey, Turned, Picked;
    Turns12();
    Picks12();
    KeyIs(key, 11, LEFT11, RIGHT11, AllKeys(11), LEFT12, RIGHT12, KEY12);
  }

  lemma Turns13()
    ensures |SHIFTS| == 16 && (SHIFTS[12] == 1 || SHIFTS[12] == 2)
    ensures Turned(LEFT12, SHIFTS[12]) == LEFT13 && Turned(RIGHT12, SHIFTS[12]) == RIGHT13
  {
  }

  lemma Picks13()
    ensures Picked(LEFT13, RIGHT13, KEY13)
  {
  }

  lemma Key13(key: Block)
    requires Scheduled(key, 12, LEFT12, RIGHT12, AllKeys(12))
    ensures Scheduled(key, 13, LEFT13, RIGHT13, AllKeys(13))
  {
    hide Scheduled, Spelled, SpelledKey, Turned, Picked;
    Turns13();
    Picks13();
    KeyIs(key, 12, LEFT12, RIGHT12, AllKeys(12), LEFT13, RIGHT13, KEY13);
  }

  lemma Turns14()
    ensures |SHIFTS| == 16 && (SHIFTS[13] == 1 || SHIFTS[13] == 2)
    ensures Turned(LEFT13, SHIFTS[13]) == LEFT14 && Turned(RIGHT13, SHIFTS[13]) == RIGHT14
  {
  }

  lemma Picks14()
    ensures Picked(LEFT14, RIGHT14, KEY14)
  {
  }

  lemma Key14(key: Block)
    requires Scheduled(key, 13, LEFT13, RIGHT13, AllKeys(13))
    ensures Scheduled(key, 14, LEFT14, RIGHT14, AllKeys(14))
  {
    hide Scheduled, Spelled, SpelledKey, Turned, Picked;
    Turns14();
    Picks14();
    KeyIs(key, 13, LEFT13, RIGHT13, AllKeys(13), LEFT14, RIGHT14, KEY14);
  }

  lemma Turns15()
    ensures |SHIFTS| == 16 && (SHIFTS[14] == 1 || SHIFTS[14] == 2)
    ensures Turned(LEFT14, SHIFTS[14]) == LEFT15 && Turned(RIGHT14, SHIFTS[14]) == RIGHT15
  {
  }

  lemma Picks15()
    ensures Picked(LEFT15, RIGHT15, KEY15)
  {
  }

  lemma Key15(key: Block)
    requires Scheduled(key, 14, LEFT14, RIGHT14, AllKeys(14))
    ensures Scheduled(key, 15, LEFT15, RIGHT15, AllKeys(15))
  {
    hide Scheduled, Spelled, SpelledKey, Turned, Picked;
    Turns15();
    Picks15();
    KeyIs(key, 14, LEFT14, RIGHT14, AllKeys(14), LEFT15, RIGHT15, KEY15);
  }

  lemma Turns16()
    ensures |SHIFTS| == 16 && (SHIFTS[15] == 1 || SHIFTS[15] == 2)
    ensures Turned(LEFT15, SHIFTS[15]) == LEFT16 && Turned(RIGHT15, SHIFTS[15]) == RIGHT16
  {
  }

  lemma Picks16()
    ensures Picked(LEFT16, RIGHT16, KEY16)
  {
  }

  lemma Key16(key: Block)
    requires Scheduled(key, 15, LEFT15, RIGHT15, AllKeys(15))
    ensures Scheduled(key, 16, LEFT16, RIGHT16, AllKeys(16))
  {
    hide Scheduled, Spelled, SpelledKey, Turned, Picked;
    Turns16();
    Picks16();
    KeyIs(key, 15, LEFT15, RIGHT15, AllKeys(15), LEFT16, RIGHT16, KEY16);
  }

  lemma OpensLeftHalf()
    ensures OpensLeft([X0, X1, X2, X3, X4, X5, X6, X7, X8, X9, XA, XB, XC, XD, XE, XF], HALF0)
  {
  }

  lemma OpensRightHalf()
    ensures OpensRight([X0, X1, X2, X3, X4, X5, X6, X7, X8, X9, XA, XB, XC, XD, XE, XF], HALF1)
  {
  }

  lemma ClosesLeftHalf()
    ensures ClosesLeft([X0, XA, X4, XC, XD, X9, X9, X5, X4, X3, X4, X2, X3, X2, X3, X4], [X8, X5, XE, X8, X1, X3,
      X5, X4])
  {
  }

  lemma ClosesRightHalf()
    ensures ClosesRight([X0, XA, X4, XC, XD, X9, X9, X5, X4, X3, X4, X2, X3, X2, X3, X4], [X0, XF, X0, XA, XB, X4,
      X0, X5])
  {
  }

  lemma KeepsLeftHalf()
    ensures KeepsLeft([X1, X3, X3, X4, X5, X7, X7, X9, X9, XB, XB, XC, XD, XF, XF, X1], LEFT0)
  {
  }

  lemma KeepsRightHalf()
    ensures KeepsRight([X1, X3, X3, X4, X5, X7, X7, X9, X9, XB, XB, XC, XD, XF, XF, X1], RIGHT0)
  {
  }

  // ---------------------------------------------------------------- the boxes

  /** What box 1 makes of the chunks with one inner bit set, row by row. */
  lemma UpperRowsOfBox1()
    ensures Sends(0, [0, 0, 0, 0, 1, 0], X4) && Sends(0, [0, 0, 0, 1, 0, 0], XD)
    ensures Sends(0, [0, 0, 1, 0, 0, 0], X2) && Sends(0, [0, 1, 0, 0, 0, 0], X3)
    ensures Sends(0, [0, 0, 0, 0, 1, 1], XF) && Sends(0, [0, 0, 0, 1, 0, 1], X7)
    ensures Sends(0, [0, 0, 1, 0, 0, 1], XE) && Sends(0, [0, 1, 0, 0, 0, 1], XA)
  {
    hide Sends;
    BoxSends(0, Six(0, 0, 0, 0, 1, 0), 0, 1, 4);
    BoxSends(0, Six(0, 0, 0, 1, 0, 0), 0, 2, 13);
    BoxSends(0, Six(0, 0, 1, 0, 0, 0), 0, 4, 2);
    BoxSends(0, Six(0, 1, 0, 0, 0, 0), 0, 8, 3);
    BoxSends(0, Six(0, 0, 0, 0, 1, 1), 1, 1, 15);
    BoxSends(0, Six(0, 0, 0, 1, 0, 1), 1, 2, 7);
    BoxSends(0, Six(0, 0, 1, 0, 0, 1), 1, 4, 14);
    BoxSends(0, Six(0, 1, 0, 0, 0, 1), 1, 8, 10);
  }

  lemma LowerRowsOfBox1()
    ensures Sends(0, [1, 0, 0, 0, 1, 0], X1) && Sends(0, [1, 0, 0, 1, 0, 0], XE)
    ensures Sends(0, [1, 0, 1, 0, 0, 0], XD) && Sends(0, [1, 1, 0, 0, 0, 0], XF)
    ensures Sends(0, [1, 0, 0, 0, 1, 1], XC) && Sends(0, [1, 0, 0, 1, 0, 1], X8)
    ensures Sends(0, [1, 0, 1, 0, 0, 1], X4) && Sends(0, [1, 1, 0, 0, 0, 1], X5)
  {
    hide Sends;
    BoxSends(0, Six(1, 0, 0, 0, 1, 0), 2, 1, 1);
    BoxSends(0, Six(1, 0, 0, 1, 0, 0), 2, 2, 14);
    BoxSends(0, Six(1, 0, 1, 0, 0, 0), 2, 4, 13);
    BoxSends(0, Six(1, 1, 0, 0, 0, 0), 2, 8, 15);
    BoxSends(0, Six(1, 0, 0, 0, 1, 1), 3, 1, 12);
    BoxSends(0, Six(1, 0, 0, 1, 0, 1), 3, 2, 8);
    BoxSends(0, Six(1, 0, 1, 0, 0, 1), 3, 4, 4);
    BoxSends(0, Six(1, 1, 0, 0, 0, 1), 3, 8, 5);
  }

  /** What box 2 makes of the chunks with one inner bit set, row by row. */
  lemma UpperRowsOfBox2()
    ensures Sends(1, [0, 0, 0, 0, 1, 0], X1) && Sends(1, [0, 0, 0, 1, 0, 0], X8)
    ensures Sends(1, [0, 0, 1, 0, 0, 0], X6) && Sends(1, [0, 1, 0, 0, 0, 0], X9)
    ensures Sends(1, [0, 0, 0, 0, 1, 1], XD) && Sends(1, [0, 0, 0, 1, 0, 1], X4)
    ensures Sends(1, [0, 0, 1, 0, 0, 1], XF) && Sends(1, [0, 1, 0, 0, 0, 1], XC)
  {
    hide Sends;
    BoxSends(1, Six(0, 0, 0, 0, 1, 0), 0, 1, 1);
    BoxSends(1, Six(0, 0, 0, 1, 0, 0), 0, 2, 8);
    BoxSends(1, Six(0, 0, 1, 0, 0, 0), 0, 4, 6);
    BoxSends(1, Six(0, 1, 0, 0, 0, 0), 0, 8, 9);
    BoxSends(1, Six(0, 0, 0, 0, 1, 1), 1, 1, 13);
    BoxSends(1, Six(0, 0, 0, 1, 0, 1), 1, 2, 4);
    BoxSends(1, Six(0, 0, 1, 0, 0, 1), 1, 4, 15);
    BoxSends(1, Six(0, 1, 0, 0, 0, 1), 1, 8, 12);
  }

  lemma LowerRowsOfBox2()
    ensures Sends(1, [1, 0, 0, 0, 1, 0], XE) && Sends(1, [1, 0, 0, 1, 0, 0], X7)
    ensures Sends(1, [1, 0, 1, 0, 0, 0], XA) && Sends(1, [1, 1, 0, 0, 0, 0], X5)
    ensures Sends(1, [1, 0, 0, 0, 1, 1], X8) && Sends(1, [1, 0, 0, 1, 0, 1], XA)
    ensures Sends(1, [1, 0, 1, 0, 0, 1], X3) && Sends(1, [1, 1, 0, 0, 0, 1], XB)
  {
    hide Sends;
    BoxSends(1, Six(1, 0, 0, 0, 1, 0), 2, 1, 14);
    BoxSends(1, Six(1, 0, 0, 1, 0, 0), 2, 2, 7);
    BoxSends(1, Six(1, 0, 1, 0, 0, 0), 2, 4, 10);
    BoxSends(1, Six(1, 1, 0, 0, 0, 0), 2, 8, 5);
    BoxSends(1, Six(1, 0, 0, 0, 1, 1), 3, 1, 8);
    BoxSends(1, Six(1, 0, 0, 1, 0, 1), 3, 2, 10);
    BoxSends(1, Six(1, 0, 1, 0, 0, 1), 3, 4, 3);
    BoxSends(1, Six(1, 1, 0, 0, 0, 1), 3, 8, 11);
  }

  /** What box 3 makes of the chunks with one inner bit set, row by row. */
  lemma UpperRowsOfBox3()
    ensures Sends(2, [0, 0, 0, 0, 1, 0], X0) && Sends(2, [0, 0, 0, 1, 0, 0], X9)
    ensures Sends(2, [0, 0, 1, 0, 0, 0], X6) && Sends(2, [0, 1, 0, 0, 0, 0], X1)
    ensures Sends(2, [0, 0, 0, 0, 1, 1], X7) && Sends(2, [0, 0, 0, 1, 0, 1], X0)
    ensures Sends(2, [0, 0, 1, 0, 0, 1], X3) && Sends(2, [0, 1, 0, 0, 0, 1], X2)
  {
    hide Sends;
    BoxSends(2, Six(0, 0, 0, 0, 1, 0), 0, 1, 0);
    BoxSends(2, Six(0, 0, 0, 1, 0, 0), 0, 2, 9);
    BoxSends(2, Six(0, 0, 1, 0, 0, 0), 0, 4, 6);
    BoxSends(2, Six(0, 1, 0, 0, 0, 0), 0, 8, 1);
    BoxSends(2, Six(0, 0, 0, 0, 1, 1), 1, 1, 7);
    BoxSends(2, Six(0, 0, 0, 1, 0, 1), 1, 2, 0);
    BoxSends(2, Six(0, 0, 1, 0, 0, 1), 1, 4, 3);
    BoxSends(2, Six(0, 1, 0, 0, 0, 1), 1, 8, 2);
  }

  lemma LowerRowsOfBox3()
    ensures Sends(2, [1, 0, 0, 0, 1, 0], X6) && Sends(2, [1, 0, 0, 1, 0, 0], X4)
    ensures Sends(2, [1, 0, 1, 0, 0, 0], X8) && Sends(2, [1, 1, 0, 0, 0, 0], XB)
    ensures Sends(2, [1, 0, 0, 0, 1, 1], XA) && Sends(2, [1, 0, 0, 1, 0, 1], XD)
    ensures Sends(2, [1, 0, 1, 0, 0, 1], X6) && Sends(2, [1, 1, 0, 0, 0, 1], X4)
  {
    hide Sends;
    BoxSends(2, Six(1, 0, 0, 0, 1, 0), 2, 1, 6);
    BoxSends(2, Six(1, 0, 0, 1, 0, 0), 2, 2, 4);
    BoxSends(2, Six(1, 0, 1, 0, 0, 0), 2, 4, 8);
    BoxSends(2, Six(1, 1, 0, 0, 0, 0), 2, 8, 11);
    BoxSends(2, Six(1, 0, 0, 0, 1, 1), 3, 1, 10);
    BoxSends(2, Six(1, 0, 0, 1, 0, 1), 3, 2, 13);
    BoxSends(2, Six(1, 0, 1, 0, 0, 1), 3, 4, 6);
    BoxSends(2, Six(1, 1, 0, 0, 0, 1), 3, 8, 4);
  }

  /** What box 4 makes of the chunks with one inner bit set, row by row. */
  lemma UpperRowsOfBox4()
    ensures Sends(3, [0, 0, 0, 0, 1, 0], XD) && Sends(3, [0, 0, 0, 1, 0, 0], XE)
    ensures Sends(3, [0, 0, 1, 0, 0, 0], X0) && Sends(3, [0, 1, 0, 0, 0, 0], X1)
    ensures Sends(3, [0, 0, 0, 0, 1, 1], X8) && Sends(3, [0, 0, 0, 1, 0, 1], XB)
    ensures Sends(3, [0, 0, 1, 0, 0, 1], X6) && Sends(3, [0, 1, 0, 0, 0, 1], X4)
  {
    hide Sends;
    BoxSends(3, Six(0, 0, 0, 0, 1, 0), 0, 1, 13);
    BoxSends(3, Six(0, 0, 0, 1, 0, 0), 0, 2, 14);
    BoxSends(3, Six(0, 0, 1, 0, 0, 0), 0, 4, 0);
    BoxSends(3, Six(0, 1, 0, 0, 0, 0), 0, 8, 1);
    BoxSends(3, Six(0, 0, 0, 0, 1, 1), 1, 1, 8);
    BoxSends(3, Six(0, 0, 0, 1, 0, 1), 1, 2, 11);
    BoxSends(3, Six(0, 0, 1, 0, 0, 1), 1, 4, 6);
    BoxSends(3, Six(0, 1, 0, 0, 0, 1), 1, 8, 4);
  }

  lemma LowerRowsOfBox4()
    ensures Sends(3, [1, 0, 0, 0, 1, 0], X6) && Sends(3, [1, 0, 0, 1, 0, 0], X9)
    ensures Sends(3, [1, 0, 1, 0, 0, 0], XC) && Sends(3, [1, 1, 0, 0, 0, 0], XF)
    ensures Sends(3, [1, 0, 0, 0, 1, 1], XF) && Sends(3, [1, 0, 0, 1, 0, 1], X0)
    ensures Sends(3, [1, 0, 1, 0, 0, 1], XA) && Sends(3, [1, 1, 0, 0, 0, 1], X9)
  {
    hide Sends;
    BoxSends(3, Six(1, 0, 0, 0, 1, 0), 2, 1, 6);
    BoxSends(3, Six(1, 0, 0, 1, 0, 0), 2, 2, 9);
    BoxSends(3, Six(1, 0, 1, 0, 0, 0), 2, 4, 12);
    BoxSends(3, Six(1, 1, 0, 0, 0, 0), 2, 8, 15);
    BoxSends(3, Six(1, 0, 0, 0, 1, 1), 3, 1, 15);
    BoxSends(3, Six(1, 0, 0, 1, 0, 1), 3, 2, 0);
    BoxSends(3, Six(1, 0, 1, 0, 0, 1), 3, 4, 10);
    BoxSends(3, Six(1, 1, 0, 0, 0, 1), 3, 8, 9);
  }

  /** What box 5 makes of the chunks with one inner bit set, row by row. */
  lemma UpperRowsOfBox5()
    ensures Sends(4, [0, 0, 0, 0, 1, 0], XC) && Sends(4, [0, 0, 0, 1, 0, 0], X4)
    ensures Sends(4, [0, 0, 1, 0, 0, 0], X7) && Sends(4, [0, 1, 0, 0, 0, 0], X8)
    ensures Sends(4, [0, 0, 0, 0, 1, 1], XB) && Sends(4, [0, 0, 0, 1, 0, 1], X2)
    ensures Sends(4, [0, 0, 1, 0, 0, 1], X4) && Sends(4, [0, 1, 0, 0, 0, 1], X5)
  {
    hide Sends;
    BoxSends(4, Six(0, 0, 0, 0, 1, 0), 0, 1, 12);
    BoxSends(4, Six(0, 0, 0, 1, 0, 0), 0, 2, 4);
    BoxSends(4, Six(0, 0, 1, 0, 0, 0), 0, 4, 7);
    BoxSends(4, Six(0, 1, 0, 0, 0, 0), 0, 8, 8);
    BoxSends(4, Six(0, 0, 0, 0, 1, 1), 1, 1, 11);
    BoxSends(4, Six(0, 0, 0, 1, 0, 1), 1, 2, 2);
    BoxSends(4, Six(0, 0, 1, 0, 0, 1), 1, 4, 4);
    BoxSends(4, Six(0, 1, 0, 0, 0, 1), 1, 8, 5);
  }

  lemma LowerRowsOfBox5()
    ensures Sends(4, [1, 0, 0, 0, 1, 0], X2) && Sends(4, [1, 0, 0, 1, 0, 0], X1)
    ensures Sends(4, [1, 0, 1, 0, 0, 0], XA) && Sends(4, [1, 1, 0, 0, 0, 0], XF)
    ensures Sends(4, [1, 0, 0, 0, 1, 1], X8) && Sends(4, [1, 0, 0, 1, 0, 1], XC)
    ensures Sends(4, [1, 0, 1, 0, 0, 1], X1) && Sends(4, [1, 1, 0, 0, 0, 1], X6)
  {
    hide Sends;
    BoxSends(4, Six(1, 0, 0, 0, 1, 0), 2, 1, 2);
    BoxSends(4, Six(1, 0, 0, 1, 0, 0), 2, 2, 1);
    BoxSends(4, Six(1, 0, 1, 0, 0, 0), 2, 4, 10);
    BoxSends(4, Six(1, 1, 0, 0, 0, 0), 2, 8, 15);
    BoxSends(4, Six(1, 0, 0, 0, 1, 1), 3, 1, 8);
    BoxSends(4, Six(1, 0, 0, 1, 0, 1), 3, 2, 12);
    BoxSends(4, Six(1, 0, 1, 0, 0, 1), 3, 4, 1);
    BoxSends(4, Six(1, 1, 0, 0, 0, 1), 3, 8, 6);
  }

  /** What box 6 makes of the chunks with one inner bit set, row by row. */
  lemma UpperRowsOfBox6()
    ensures Sends(5, [0, 0, 0, 0, 1, 0], X1) && Sends(5, [0, 0, 0, 1, 0, 0], XA)
    ensures Sends(5, [0, 0, 1, 0, 0, 0], X9) && Sends(5, [0, 1, 0, 0, 0, 0], X0)
    ensures Sends(5, [0, 0, 0, 0, 1, 1], XF) && Sends(5, [0, 0, 0, 1, 0, 1], X4)
    ensures Sends(5, [0, 0, 1, 0, 0, 1], X7) && Sends(5, [0, 1, 0, 0, 0, 1], X6)
  {
    hide Sends;
    BoxSends(5, Six(0, 0, 0, 0, 1, 0), 0, 1, 1);
    BoxSends(5, Six(0, 0, 0, 1, 0, 0), 0, 2, 10);
    BoxSends(5, Six(0, 0, 1, 0, 0, 0), 0, 4, 9);
    BoxSends(5, Six(0, 1, 0, 0, 0, 0), 0, 8, 0);
    BoxSends(5, Six(0, 0, 0, 0, 1, 1), 1, 1, 15);
    BoxSends(5, Six(0, 0, 0, 1, 0, 1), 1, 2, 4);
    BoxSends(5, Six(0, 0, 1, 0, 0, 1), 1, 4, 7);
    BoxSends(5, Six(0, 1, 0, 0, 0, 1), 1, 8, 6);
  }

  lemma LowerRowsOfBox6()
    ensures Sends(5, [1, 0, 0, 0, 1, 0], XE) && Sends(5, [1, 0, 0, 1, 0, 0], XF)
    ensures Sends(5, [1, 0, 1, 0, 0, 0], X2) && Sends(5, [1, 1, 0, 0, 0, 0], X7)
    ensures Sends(5, [1, 0, 0, 0, 1, 1], X3) && Sends(5, [1, 0, 0, 1, 0, 1], X2)
    ensures Sends(5, [1, 0, 1, 0, 0, 1], X9) && Sends(5, [1, 1, 0, 0, 0, 1], XB)
  {
    hide Sends;
    BoxSends(5, Six(1, 0, 0, 0, 1, 0), 2, 1, 14);
    BoxSends(5, Six(1, 0, 0, 1, 0, 0), 2, 2, 15);
    BoxSends(5, Six(1, 0, 1, 0, 0, 0), 2, 4, 2);
    BoxSends(5, Six(1, 1, 0, 0, 0, 0), 2, 8, 7);
    BoxSends(5, Six(1, 0, 0, 0, 1, 1), 3, 1, 3);
    BoxSends(5, Six(1, 0, 0, 1, 0, 1), 3, 2, 2);
    BoxSends(5, Six(1, 0, 1, 0, 0, 1), 3, 4, 9);
    BoxSends(5, Six(1, 1, 0, 0, 0, 1), 3, 8, 11);
  }

  /** What box 7 makes of the chunks with one inner bit set, row by row. */
  lemma UpperRowsOfBox7()
    ensures Sends(6, [0, 0, 0, 0, 1, 0], XB) && Sends(6, [0, 0, 0, 1, 0, 0], X2)
    ensures Sends(6, [0, 0, 1, 0, 0, 0], XF) && Sends(6, [0, 1, 0, 0, 0, 0], X3)
    ensures Sends(6, [0, 0, 0, 0, 1, 1], X0) && Sends(6, [0, 0, 0, 1, 0, 1], XB)
    ensures Sends(6, [0, 0, 1, 0, 0, 1], X4) && Sends(6, [0, 1, 0, 0, 0, 1], XE)
  {
    hide Sends;
    BoxSends(6, Six(0, 0, 0, 0, 1, 0), 0, 1, 11);
    BoxSends(6, Six(0, 0, 0, 1, 0, 0), 0, 2, 2);
    BoxSends(6, Six(0, 0, 1, 0, 0, 0), 0, 4, 15);
    BoxSends(6, Six(0, 1, 0, 0, 0, 0), 0, 8, 3);
    BoxSends(6, Six(0, 0, 0, 0, 1, 1), 1, 1, 0);
    BoxSends(6, Six(0, 0, 0, 1, 0, 1), 1, 2, 11);
    BoxSends(6, Six(0, 0, 1, 0, 0, 1), 1, 4, 4);
    BoxSends(6, Six(0, 1, 0, 0, 0, 1), 1, 8, 14);
  }

  lemma LowerRowsOfBox7()
    ensures Sends(6, [1, 0, 0, 0, 1, 0], X4) && Sends(6, [1, 0, 0, 1, 0, 0], XB)
    ensures Sends(6, [1, 0, 1, 0, 0, 0], XC) && Sends(6, [1, 1, 0, 0, 0, 0], XA)
    ensures Sends(6, [1, 0, 0, 0, 1, 1], XB) && Sends(6, [1, 0, 0, 1, 0, 1], XD)
    ensures Sends(6, [1, 0, 1, 0, 0, 1], X1) && Sends(6, [1, 1, 0, 0, 0, 1], X9)
  {
    hide Sends;
    BoxSends(6, Six(1, 0, 0, 0, 1, 0), 2, 1, 4);
    BoxSends(6, Six(1, 0, 0, 1, 0, 0), 2, 2, 11);
    BoxSends(6, Six(1, 0, 1, 0, 0, 0), 2, 4, 12);
    BoxSends(6, Six(1, 1, 0, 0, 0, 0), 2, 8, 10);
    BoxSends(6, Six(1, 0, 0, 0, 1, 1), 3, 1, 11);
    BoxSends(6, Six(1, 0, 0, 1, 0, 1), 3, 2, 13);
    BoxSends(6, Six(1, 0, 1, 0, 0, 1), 3, 4, 1);
    BoxSends(6, Six(1, 1, 0, 0, 0, 1), 3, 8, 9);
  }

  /** What box 8 makes of the chunks with one inner bit set, row by row. */
  lemma UpperRowsOfBox8()
    ensures Sends(7, [0, 0, 0, 0, 1, 0], X2) && Sends(7, [0, 0, 0, 1, 0, 0], X8)
    ensures Sends(7, [0, 0, 1, 0, 0, 0], X6) && Sends(7, [0, 1, 0, 0, 0, 0], XA)
    ensures Sends(7, [0, 0, 0, 0, 1, 1], XF) && Sends(7, [0, 0, 0, 1, 0, 1], XD)
    ensures Sends(7, [0, 0, 1, 0, 0, 1], XA) && Sends(7, [0, 1, 0, 0, 0, 1], XC)
  {
    hide Sends;
    BoxSends(7, Six(0, 0, 0, 0, 1, 0), 0, 1, 2);
    BoxSends(7, Six(0, 0, 0, 1, 0, 0), 0, 2, 8);
    BoxSends(7, Six(0, 0, 1, 0, 0, 0), 0, 4, 6);
    BoxSends(7, Six(0, 1, 0, 0, 0, 0), 0, 8, 10);
    BoxSends(7, Six(0, 0, 0, 0, 1, 1), 1, 1, 15);
    BoxSends(7, Six(0, 0, 0, 1, 0, 1), 1, 2, 13);
    BoxSends(7, Six(0, 0, 1, 0, 0, 1), 1, 4, 10);
    BoxSends(7, Six(0, 1, 0, 0, 0, 1), 1, 8, 12);
  }

  lemma LowerRowsOfBox8()
    ensures Sends(7, [1, 0, 0, 0, 1, 0], XB) && Sends(7, [1, 0, 0, 1, 0, 0], X4)
    ensures Sends(7, [1, 0, 1, 0, 0, 0], X9) && Sends(7, [1, 1, 0, 0, 0, 0], X0)
    ensures Sends(7, [1, 0, 0, 0, 1, 1], X1) && Sends(7, [1, 0, 0, 1, 0, 1], XE)
    ensures Sends(7, [1, 0, 1, 0, 0, 1], X4) && Sends(7, [1, 1, 0, 0, 0, 1], XF)
  {
    hide Sends;
    BoxSends(7, Six(1, 0, 0, 0, 1, 0), 2, 1, 11);
    BoxSends(7, Six(1, 0, 0, 1, 0, 0), 2, 2, 4);
    BoxSends(7, Six(1, 0, 1, 0, 0, 0), 2, 4, 9);
    BoxSends(7, Six(1, 1, 0, 0, 0, 0), 2, 8, 0);
    BoxSends(7, Six(1, 0, 0, 0, 1, 1), 3, 1, 1);
    BoxSends(7, Six(1, 0, 0, 1, 0, 1), 3, 2, 14);
    BoxSends(7, Six(1, 0, 1, 0, 0, 1), 3, 4, 4);
    BoxSends(7, Six(1, 1, 0, 0, 0, 1), 3, 8, 15);
  }

  // ---------------------------------------------------------------- the rounds

  lemma Boxes1()
    ensures Makes(0, Six(0, 1, 1, 0, 0, 0), X5) && Makes(1, Six(0, 1, 0, 0, 0, 1), XC)
    ensures Makes(2, Six(0, 1, 1, 1, 1, 0), X8) && Makes(3, Six(1, 1, 1, 0, 1, 0), X2)
    ensures Makes(4, Six(1, 0, 0, 0, 0, 1), XB) && Makes(5, Six(1, 0, 0, 1, 1, 0), X5)
    ensures Makes(6, Six(0, 1, 0, 1, 0, 0), X9) && Makes(7, Six(1, 0, 0, 1, 1, 1), X7)
  {
    hide Makes;
    BoxMakes(0, Six(0, 1, 1, 0, 0, 0), 0, 12, 5);
    BoxMakes(1, Six(0, 1, 0, 0, 0, 1), 1, 8, 12);
    BoxMakes(2, Six(0, 1, 1, 1, 1, 0), 0, 15, 8);
    BoxMakes(3, Six(1, 1, 1, 0, 1, 0), 2, 13, 2);
    BoxMakes(4, Six(1, 0, 0, 0, 0, 1), 3, 0, 11);
    BoxMakes(5, Six(1, 0, 0, 1, 1, 0), 2, 3, 5);
    BoxMakes(6, Six(0, 1, 0, 1, 0, 0), 0, 10, 9);
    BoxMakes(7, Six(1, 0, 0, 1, 1, 1), 3, 3, 7);
  }

  lemma Round1(p: (HalfBlock, HalfBlock))
    requires Reached(p, AllKeys(0), HALF0, HALF1)
    ensures Reached(p, AllKeys(1), HALF1, HALF2)
  {
    hide Makes, Reached, Spelled, SpelledKey;
    var c := [Six(0, 1, 1, 0, 0, 0), Six(0, 1, 0, 0, 0, 1), Six(0, 1, 1, 1, 1, 0), Six(1, 1, 1, 0, 1, 0),
      Six(1, 0, 0, 0, 0, 1), Six(1, 0, 0, 1, 1, 0), Six(0, 1, 0, 1, 0, 0), Six(1, 0, 0, 1, 1, 1)];
    var o := [X5, XC, X8, X2, XB, X5, X9, X7];
    Boxes1();
    NextRound(p, AllKeys(0), HALF0, HALF1, KEY1, c, o, HALF2);
  }

  lemma Boxes2()
    ensures Makes(0, Six(0, 0, 0, 0, 1, 1), XF) && Makes(1, Six(0, 0, 0, 1, 0, 0), X8)
    ensures Makes(2, Six(0, 1, 0, 0, 1, 0), XD) && Makes(3, Six(0, 0, 1, 1, 0, 1), X0)
    ensures Makes(4, Six(1, 1, 1, 0, 1, 0), X3) && Makes(5, Six(1, 1, 0, 1, 1, 0), XA)
    ensures Makes(6, Six(0, 0, 1, 1, 1, 1), XA) && Makes(7, Six(1, 0, 1, 1, 0, 0), XE)
  {
    hide Makes;
    BoxMakes(0, Six(0, 0, 0, 0, 1, 1), 1, 1, 15);
    BoxMakes(1, Six(0, 0, 0, 1, 0, 0), 0, 2, 8);
    BoxMakes(2, Six(0, 1, 0, 0, 1, 0), 0, 9, 13);
    BoxMakes(3, Six(0, 0, 1, 1, 0, 1), 1, 6, 0);
    BoxMakes(4, Six(1, 1, 1, 0, 1, 0), 2, 13, 3);
    BoxMakes(5, Six(1, 1, 0, 1, 1, 0), 2, 11, 10);
    BoxMakes(6, Six(0, 0, 1, 1, 1, 1), 1, 7, 10);
    BoxMakes(7, Six(1, 0, 1, 1, 0, 0), 2, 6, 14);
  }

  lemma Round2(p: (HalfBlock, HalfBlock))
    requires Reached(p, AllKeys(1), HALF1, HALF2)
    ensures Reached(p, AllKeys(2), HALF2, HALF3)
  {
    hide Makes, Reached, Spelled, SpelledKey;
    var c := [Six(0, 0, 0, 0, 1, 1), Six(0, 0, 0, 1, 0, 0), Six(0, 1, 0, 0, 1, 0), Six(0, 0, 1, 1, 0, 1),
      Six(1, 1, 1, 0, 1, 0), Six(1, 1, 0, 1, 1, 0), Six(0, 0, 1, 1, 1, 1), Six(1, 0, 1, 1, 0, 0)];
    var o := [XF, X8, XD, X0, X3, XA, XA, XE];
    Boxes2();
    NextRound(p, AllKeys(1), HALF1, HALF2, KEY2, c, o, HALF3);
  }

  lemma Boxes3()
    ensures Makes(0, Six(1, 0, 1, 1, 0, 0), X2) && Makes(1, Six(0, 0, 0, 1, 1, 1), X7)
    ensures Makes(2, Six(1, 1, 0, 0, 1, 0), X1) && Makes(3, Six(0, 0, 1, 0, 0, 0), X0)
    ensures Makes(4, Six(1, 1, 1, 1, 1, 0), XE) && Makes(5, Six(0, 0, 0, 0, 1, 0), X1)
    ensures Makes(6, Six(0, 1, 1, 1, 1, 1), X6) && Makes(7, Six(0, 0, 1, 0, 1, 0), XF)
  {
    hide Makes;
    BoxMakes(0, Six(1, 0, 1, 1, 0, 0), 2, 6, 2);
    BoxMakes(1, Six(0, 0, 0, 1, 1, 1), 1, 3, 7);
    BoxMakes(2, Six(1, 1, 0, 0, 1, 0), 2, 9, 1);
    BoxMakes(3, Six(0, 0, 1, 0, 0, 0), 0, 4, 0);
    BoxMakes(4, Six(1, 1, 1, 1, 1, 0), 2, 15, 14);
    BoxMakes(5, Six(0, 0, 0, 0, 1, 0), 0, 1, 1);
    BoxMakes(6, Six(0, 1, 1, 1, 1, 1), 1, 15, 6);
    BoxMakes(7, Six(0, 0, 1, 0, 1, 0), 0, 5, 15);
  }

  lemma Round3(p: (HalfBlock, HalfBlock))
    requires Reached(p, AllKeys(2), HALF2, HALF3)
    ensures Reached(p, AllKeys(3), HALF3, HALF4)
  {
    hide Makes, Reached, Spelled, SpelledKey;
    var c := [Six(1, 0, 1, 1, 0, 0), Six(0, 0, 0, 1, 1, 1), Six(1, 1, 0, 0, 1, 0), Six(0, 0, 1, 0, 0, 0),
      Six(1, 1, 1, 1, 1, 0), Six(0, 0, 0, 0, 1, 0), Six(0, 1, 1, 1, 1, 1), Six(0, 0, 1, 0, 1, 0)];
    var o := [X2, X7, X1, X0, XE, X1, X6, XF];
    Boxes3();
    NextRound(p, AllKeys(2), HALF2, HALF3, KEY3, c, o, HALF4);
  }

  lemma Boxes4()
    ensures Makes(0, Six(0, 0, 1, 0, 0, 0), X2) && Makes(1, Six(1, 0, 1, 1, 1, 0), X1)
    ensures Makes(2, Six(1, 1, 1, 1, 0, 0), XE) && Makes(3, Six(1, 0, 1, 1, 1, 0), XD)
    ensures Makes(4, Six(1, 1, 0, 1, 1, 1), X9) && Makes(5, Six(1, 0, 0, 1, 0, 0), XF)
    ensures Makes(6, Six(1, 0, 1, 0, 1, 0), X3) && Makes(7, Six(1, 1, 0, 1, 0, 0), XA)
  {
    hide Makes;
    BoxMakes(0, Six(0, 0, 1, 0, 0, 0), 0, 4, 2);
    BoxMakes(1, Six(1, 0, 1, 1, 1, 0), 2, 7, 1);
    BoxMakes(2, Six(1, 1, 1, 1, 0, 0), 2, 14, 14);
    BoxMakes(3, Six(1, 0, 1, 1, 1, 0), 2, 7, 13);
    BoxMakes(4, Six(1, 1, 0, 1, 1, 1), 3, 11, 9);
    BoxMakes(5, Six(1, 0, 0, 1, 0, 0), 2, 2, 15);
    BoxMakes(6, Six(1, 0, 1, 0, 1, 0), 2, 5, 3);
    BoxMakes(7, Six(1, 1, 0, 1, 0, 0), 2, 10, 10);
  }

  lemma Round4(p: (HalfBlock, HalfBlock))
    requires Reached(p, AllKeys(3), HALF3, HALF4)
    ensures Reached(p, AllKeys(4), HALF4, HALF5)
  {
    hide Makes, Reached, Spelled, SpelledKey;
    var c := [Six(0, 0, 1, 0, 0, 0), Six(1, 0, 1, 1, 1, 0), Six(1, 1, 1, 1, 0, 0), Six(1, 0, 1, 1, 1, 0),
      Six(1, 1, 0, 1, 1, 1), Six(1, 0, 0, 1, 0, 0), Six(1, 0, 1, 0, 1, 0), Six(1, 1, 0, 1, 0, 0)];
    var o := [X2, X1, XE, XD, X9, XF, X3, XA];
    Boxes4();
    NextRound(p, AllKeys(3), HALF3, HALF4, KEY4, c, o, HALF5);
  }

  lemma Boxes5()
    ensures Makes(0, Six(1, 1, 0, 0, 0, 1), X5) && Makes(1, Six(1, 0, 0, 0, 0, 0), X0)
    ensures Makes(2, Six(0, 1, 0, 1, 0, 0), XC) && Makes(3, Six(0, 0, 0, 0, 1, 1), X8)
    ensures Makes(4, Six(1, 1, 1, 0, 1, 0), X3) && Makes(5, Six(1, 1, 0, 1, 0, 1), X1)
    ensures Makes(6, Six(0, 0, 0, 1, 1, 0), XE) && Makes(7, Six(1, 0, 0, 0, 1, 0), XB)
  {
    hide Makes;
    BoxMakes(0, Six(1, 1, 0, 0, 0, 1), 3, 8, 5);
    BoxMakes(1, Six(1, 0, 0, 0, 0, 0), 2, 0, 0);
    BoxMakes(2, Six(0, 1, 0, 1, 0, 0), 0, 10, 12);
    BoxMakes(3, Six(0, 0, 0, 0, 1, 1), 1, 1, 8);
    BoxMakes(4, Six(1, 1, 1, 0, 1, 0), 2, 13, 3);
    BoxMakes(5, Six(1, 1, 0, 1, 0, 1), 3, 10, 1);
    BoxMakes(6, Six(0, 0, 0, 1, 1, 0), 0, 3, 14);
    BoxMakes(7, Six(1, 0, 0, 0, 1, 0), 2, 1, 11);
  }

  lemma Round5(p: (HalfBlock, HalfBlock))
    requires Reached(p, AllKeys(4), HALF4, HALF5)
    ensures Reached(p, AllKeys(5), HALF5, HALF6)
  {
    hide Makes, Reached, Spelled, SpelledKey;
    var c := [Six(1, 1, 0, 0, 0, 1), Six(1, 0, 0, 0, 0, 0), Six(0, 1, 0, 1, 0, 0), Six(0, 0, 0, 0, 1, 1),
      Six(1, 1, 1, 0, 1, 0), Six(1, 1, 0, 1, 0, 1), Six(0, 0, 0, 1, 1, 0), Six(1, 0, 0, 0, 1, 0)];
    var o := [X5, X0, XC, X8, X3, X1, XE, XB];
    Boxes5();
    NextRound(p, AllKeys(4), HALF4, HALF5, KEY5, c, o, HALF6);
  }

  lemma Boxes6()
    ensures Makes(0, Six(1, 0, 1, 0, 0, 1), X4) && Makes(1, Six(1, 0, 1, 1, 1, 0), X1)
    ensures Makes(2, Six(0, 1, 1, 1, 0, 1), XF) && Makes(3, Six(1, 0, 0, 0, 0, 1), X3)
    ensures Makes(4, Six(1, 0, 0, 0, 0, 0), X4) && Makes(5, Six(0, 0, 1, 0, 1, 1), XC)
    ensures Makes(6, Six(1, 0, 1, 0, 1, 0), X3) && Makes(7, Six(0, 0, 0, 0, 0, 0), XD)
  {
    hide Makes;
    BoxMakes(0, Six(1, 0, 1, 0, 0, 1), 3, 4, 4);
    BoxMakes(1, Six(1, 0, 1, 1, 1, 0), 2, 7, 1);
    BoxMakes(2, Six(0, 1, 1, 1, 0, 1), 1, 14, 15);
    BoxMakes(3, Six(1, 0, 0, 0, 0, 1), 3, 0, 3);
    BoxMakes(4, Six(1, 0, 0, 0, 0, 0), 2, 0, 4);
    BoxMakes(5, Six(0, 0, 1, 0, 1, 1), 1, 5, 12);
    BoxMakes(6, Six(1, 0, 1, 0, 1, 0), 2, 5, 3);
    BoxMakes(7, Six(0, 0, 0, 0, 0, 0), 0, 0, 13);
  }

  lemma Round6(p: (HalfBlock, HalfBlock))
    requires Reached(p, AllKeys(5), HALF5, HALF6)
    ensures Reached(p, AllKeys(6), HALF6, HALF7)
  {
    hide Makes, Reached, Spelled, SpelledKey;
    var c := [Six(1, 0, 1, 0, 0, 1), Six(1, 0, 1, 1, 1, 0), Six(0, 1, 1, 1, 0, 1), Six(1, 0, 0, 0, 0, 1),
      Six(1, 0, 0, 0, 0, 0), Six(0, 0, 1, 0, 1, 1), Six(1, 0, 1, 0, 1, 0), Six(0, 0, 0, 0, 0, 0)];
    var o := [X4, X1, XF, X3, X4, XC, X3, XD];
    Boxes6();
    NextRound(p, AllKeys(5), HALF5, HALF6, KEY6, c, o, HALF7);
  }

  lemma Boxes7()
    ensures Makes(0, Six(0, 0, 0, 1, 1, 0), X1) && Makes(1, Six(0, 1, 1, 0, 1, 0), X0)
    ensures Makes(2, Six(1, 1, 1, 1, 1, 0), X7) && Makes(3, Six(1, 1, 1, 0, 0, 0), X5)
    ensures Makes(4, Six(0, 0, 0, 1, 0, 0), X4) && Makes(5, Six(1, 1, 1, 0, 1, 1), X0)
    ensures Makes(6, Six(0, 0, 1, 1, 1, 1), XA) && Makes(7, Six(1, 0, 1, 1, 1, 1), XD)
  {
    hide Makes;
    BoxMakes(0, Six(0, 0, 0, 1, 1, 0), 0, 3, 1);
    BoxMakes(1, Six(0, 1, 1, 0, 1, 0), 0, 13, 0);
    BoxMakes(2, Six(1, 1, 1, 1, 1, 0), 2, 15, 7);
    BoxMakes(3, Six(1, 1, 1, 0, 0, 0), 2, 12, 5);
    BoxMakes(4, Six(0, 0, 0, 1, 0, 0), 0, 2, 4);
    BoxMakes(5, Six(1, 1, 1, 0, 1, 1), 3, 13, 0);
    BoxMakes(6, Six(0, 0, 1, 1, 1, 1), 1, 7, 10);
    BoxMakes(7, Six(1, 0, 1, 1, 1, 1), 3, 7, 13);
  }

  lemma Round7(p: (HalfBlock, HalfBlock))
    requires Reached(p, AllKeys(6), HALF6, HALF7)
    ensures Reached(p, AllKeys(7), HALF7, HALF8)
  {
    hide Makes, Reached, Spelled, SpelledKey;
    var c := [Six(0, 0, 0, 1, 1, 0), Six(0, 1, 1, 0, 1, 0), Six(1, 1, 1, 1, 1, 0), Six(1, 1, 1, 0, 0, 0),
      Six(0, 0, 0, 1, 0, 0), Six(1, 1, 1, 0, 1, 1), Six(0, 0, 1, 1, 1, 1), Six(1, 0, 1, 1, 1, 1)];
    var o := [X1, X0, X7, X5, X4, X0, XA, XD];
    Boxes7();
    NextRound(p, AllKeys(6), HALF6, HALF7, KEY7, c, o, HALF8);
  }

  lemma Boxes8()
    ensures Makes(0, Six(1, 1, 1, 1, 0, 1), X6) && Makes(1, Six(1, 1, 0, 1, 0, 0), XC)
    ensures Makes(2, Six(1, 0, 0, 0, 0, 1), X1) && Makes(3, Six(1, 0, 1, 1, 1, 1), X8)
    ensures Makes(4, Six(1, 0, 0, 1, 1, 1), X7) && Makes(5, Six(1, 0, 0, 1, 1, 1), XC)
    ensures Makes(6, Six(1, 0, 1, 1, 0, 1), XA) && Makes(7, Six(0, 1, 1, 0, 1, 1), XE)
  {
    hide Makes;
    BoxMakes(0, Six(1, 1, 1, 1, 0, 1), 3, 14, 6);
    BoxMakes(1, Six(1, 1, 0, 1, 0, 0), 2, 10, 12);
    BoxMakes(2, Six(1, 0, 0, 0, 0, 1), 3, 0, 1);
    BoxMakes(3, Six(1, 0, 1, 1, 1, 1), 3, 7, 8);
    BoxMakes(4, Six(1, 0, 0, 1, 1, 1), 3, 3, 7);
    BoxMakes(5, Six(1, 0, 0, 1, 1, 1), 3, 3, 12);
    BoxMakes(6, Six(1, 0, 1, 1, 0, 1), 3, 6, 10);
    BoxMakes(7, Six(0, 1, 1, 0, 1, 1), 1, 13, 14);
  }

  lemma Round8(p: (HalfBlock, HalfBlock))
    requires Reached(p, AllKeys(7), HALF7, HALF8)
    ensures Reached(p, AllKeys(8), HALF8, HALF9)
  {
    hide Makes, Reached, Spelled, SpelledKey;
    var c := [Six(1, 1, 1, 1, 0, 1), Six(1, 1, 0, 1, 0, 0), Six(1, 0, 0, 0, 0, 1), Six(1, 0, 1, 1, 1, 1),
      Six(1, 0, 0, 1, 1, 1), Six(1, 0, 0, 1, 1, 1), Six(1, 0, 1, 1, 0, 1), Six(0, 1, 1, 0, 1, 1)];
    var o := [X6, XC, X1, X8, X7, XC, XA, XE];
    Boxes8();
    NextRound(p, AllKeys(7), HALF7, HALF8, KEY8, c, o, HALF9);
  }

  lemma Boxes9()
    ensures Makes(0, Six(1, 0, 0, 0, 1, 0), X1) && Makes(1, Six(1, 0, 0, 1, 1, 1), X1)
    ensures Makes(2, Six(0, 0, 0, 0, 1, 0), X0) && Makes(3, Six(1, 1, 1, 0, 0, 1), XC)
    ensures Makes(4, Six(0, 1, 0, 0, 1, 0), X5) && Makes(5, Six(0, 0, 1, 0, 0, 1), X7)
    ensures Makes(6, Six(1, 0, 1, 1, 0, 0), X7) && Makes(7, Six(1, 0, 0, 0, 0, 0), X7)
  {
    hide Makes;
    BoxMakes(0, Six(1, 0, 0, 0, 1, 0), 2, 1, 1);
    BoxMakes(1, Six(1, 0, 0, 1, 1, 1), 3, 3, 1);
    BoxMakes(2, Six(0, 0, 0, 0, 1, 0), 0, 1, 0);
    BoxMakes(3, Six(1, 1, 1, 0, 0, 1), 3, 12, 12);
    BoxMakes(4, Six(0, 1, 0, 0, 1, 0), 0, 9, 5);
    BoxMakes(5, Six(0, 0, 1, 0, 0, 1), 1, 4, 7);
    BoxMakes(6, Six(1, 0, 1, 1, 0, 0), 2, 6, 7);
    BoxMakes(7, Six(1, 0, 0, 0, 0, 0), 2, 0, 7);
  }

  lemma Round9(p: (HalfBlock, HalfBlock))
    requires Reached(p, AllKeys(8), HALF8, HALF9)
    ensures Reached(p, AllKeys(9), HALF9, HALF10)
  {
    hide Makes, Reached, Spelled, SpelledKey;
    var c := [Six(1, 0, 0, 0, 1, 0), Six(1, 0, 0, 1, 1, 1), Six(0, 0, 0, 0, 1, 0), Six(1, 1, 1, 0, 0, 1),
      Six(0, 1, 0, 0, 1, 0), Six(0, 0, 1, 0, 0, 1), Six(1, 0, 1, 1, 0, 0), Six(1, 0, 0, 0, 0, 0)];
    var o := [X1, X1, X0, XC, X5, X7, X7, X7];
    Boxes9();
    NextRound(p, AllKeys(8), HALF8, HALF9, KEY9, c, o, HALF10);
  }

  lemma Boxes10()
    ensures Makes(0, Six(1, 0, 1, 0, 0, 0), XD) && Makes(1, Six(0, 1, 0, 1, 1, 1), XA)
    ensures Makes(2, Six(0, 0, 0, 0, 1, 0), X0) && Makes(3, Six(1, 1, 1, 1, 1, 0), X4)
    ensures Makes(4, Six(1, 1, 0, 1, 1, 0), X5) && Makes(5, Six(1, 0, 1, 0, 0, 0), X2)
    ensures Makes(6, Six(0, 1, 0, 1, 1, 0), X7) && Makes(7, Six(1, 1, 1, 0, 1, 1), X5)
  {
    hide Makes;
    BoxMakes(0, Six(1, 0, 1, 0, 0, 0), 2, 4, 13);
    BoxMakes(1, Six(0, 1, 0, 1, 1, 1), 1, 11, 10);
    BoxMakes(2, Six(0, 0, 0, 0, 1, 0), 0, 1, 0);
    BoxMakes(3, Six(1, 1, 1, 1, 1, 0), 2, 15, 4);
    BoxMakes(4, Six(1, 1, 0, 1, 1, 0), 2, 11, 5);
    BoxMakes(5, Six(1, 0, 1, 0, 0, 0), 2, 4, 2);
    BoxMakes(6, Six(0, 1, 0, 1, 1, 0), 0, 11, 7);
    BoxMakes(7, Six(1, 1, 1, 0, 1, 1), 3, 13, 5);
  }

  lemma Round10(p: (HalfBlock, HalfBlock))
    requires Reached(p, AllKeys(9), HALF9, HALF10)
    ensures Reached(p, AllKeys(10), HALF10, HALF11)
  {
    hide Makes, Reached, Spelled, SpelledKey;
    var c := [Six(1, 0, 1, 0, 0, 0), Six(0, 1, 0, 1, 1, 1), Six(0, 0, 0, 0, 1, 0), Six(1, 1, 1, 1, 1, 0),
      Six(1, 1, 0, 1, 1, 0), Six(1, 0, 1, 0, 0, 0), Six(0, 1, 0, 1, 1, 0), Six(1, 1, 1, 0, 1, 1)];
    var o := [XD, XA, X0, X4, X5, X2, X7, X5];
    Boxes10();
    NextRound(p, AllKeys(9), HALF9, HALF10, KEY10, c, o, HALF11);
  }

  lemma Boxes11()
    ensures Makes(0, Six(0, 1, 1, 1, 1, 0), X7) && Makes(1, Six(1, 1, 1, 0, 1, 0), X3)
    ensures Makes(2, Six(0, 0, 0, 1, 0, 1), X0) && Makes(3, Six(1, 1, 1, 0, 0, 0), X5)
    ensures Makes(4, Six(0, 0, 1, 1, 0, 1), XD) && Makes(5, Six(0, 0, 0, 0, 1, 0), X1)
    ensures Makes(6, Six(1, 1, 1, 0, 0, 0), X0) && Makes(7, Six(1, 0, 0, 0, 1, 1), X1)
  {
    hide Makes;
    BoxMakes(0, Six(0, 1, 1, 1, 1, 0), 0, 15, 7);
    BoxMakes(1, Six(1, 1, 1, 0, 1, 0), 2, 13, 3);
    BoxMakes(2, Six(0, 0, 0, 1, 0, 1), 1, 2, 0);
    BoxMakes(3, Six(1, 1, 1, 0, 0, 0), 2, 12, 5);
    BoxMakes(4, Six(0, 0, 1, 1, 0, 1), 1, 6, 13);
    BoxMakes(5, Six(0, 0, 0, 0, 1, 0), 0, 1, 1);
    BoxMakes(6, Six(1, 1, 1, 0, 0, 0), 2, 12, 0);
    BoxMakes(7, Six(1, 0, 0, 0, 1, 1), 3, 1, 1);
  }

  lemma Round11(p: (HalfBlock, HalfBlock))
    requires Reached(p, AllKeys(10), HALF10, HALF11)
    ensures Reached(p, AllKeys(11), HALF11, HALF12)
  {
    hide Makes, Reached, Spelled, SpelledKey;
    var c := [Six(0, 1, 1, 1, 1, 0), Six(1, 1, 1, 0, 1, 0), Six(0, 0, 0, 1, 0, 1), Six(1, 1, 1, 0, 0, 0),
      Six(0, 0, 1, 1, 0, 1), Six(0, 0, 0, 0, 1, 0), Six(1, 1, 1, 0, 0, 0), Six(1, 0, 0, 0, 1, 1)];
    var o := [X7, X3, X0, X5, XD, X1, X0, X1];
    Boxes11();
    NextRound(p, AllKeys(10), HALF10, HALF11, KEY11, c, o, HALF12);
  }

  lemma Boxes12()
    ensures Makes(0, Six(0, 0, 0, 1, 0, 1), X7) && Makes(1, Six(0, 1, 1, 1, 0, 1), XB)
    ensures Makes(2, Six(1, 0, 1, 0, 0, 0), X8) && Makes(3, Six(0, 0, 0, 1, 0, 1), XB)
    ensures Makes(4, Six(1, 0, 0, 0, 1, 0), X2) && Makes(5, Six(1, 1, 1, 1, 1, 0), X6)
    ensures Makes(6, Six(0, 1, 0, 0, 0, 0), X3) && Makes(7, Six(0, 1, 1, 0, 0, 0), X5)
  {
    hide Makes;
    BoxMakes(0, Six(0, 0, 0, 1, 0, 1), 1, 2, 7);
    BoxMakes(1, Six(0, 1, 1, 1, 0, 1), 1, 14, 11);
    BoxMakes(2, Six(1, 0, 1, 0, 0, 0), 2, 4, 8);
    BoxMakes(3, Six(0, 0, 0, 1, 0, 1), 1, 2, 11);
    BoxMakes(4, Six(1, 0, 0, 0, 1, 0), 2, 1, 2);
    BoxMakes(5, Six(1, 1, 1, 1, 1, 0), 2, 15, 6);
    BoxMakes(6, Six(0, 1, 0, 0, 0, 0), 0, 8, 3);
    BoxMakes(7, Six(0, 1, 1, 0, 0, 0), 0, 12, 5);
  }

  lemma Round12(p: (HalfBlock, HalfBlock))
    requires Reached(p, AllKeys(11), HALF11, HALF12)
    ensures Reached(p, AllKeys(12), HALF12, HALF13)
  {
    hide Makes, Reached, Spelled, SpelledKey;
    var c := [Six(0, 0, 0, 1, 0, 1), Six(0, 1, 1, 1, 0, 1), Six(1, 0, 1, 0, 0, 0), Six(0, 0, 0, 1, 0, 1),
      Six(1, 0, 0, 0, 1, 0), Six(1, 1, 1, 1, 1, 0), Six(0, 1, 0, 0, 0, 0), Six(0, 1, 1, 0, 0, 0)];
    var o := [X7, XB, X8, XB, X2, X6, X3, X5];
    Boxes12();
    NextRound(p, AllKeys(11), HALF11, HALF12, KEY12, c, o, HALF13);
  }

  lemma Boxes13()
    ensures Makes(0, Six(1, 0, 1, 0, 1, 1), X9) && Makes(1, Six(0, 1, 0, 1, 1, 1), XA)
    ensures Makes(2, Six(1, 0, 0, 0, 0, 0), XD) && Makes(3, Six(1, 0, 1, 0, 1, 1), X1)
    ensures Makes(4, Six(0, 1, 1, 1, 0, 1), X8) && Makes(5, Six(0, 1, 1, 0, 1, 1), XB)
    ensures Makes(6, Six(1, 0, 0, 0, 1, 0), X4) && Makes(7, Six(1, 1, 0, 0, 0, 1), XF)
  {
    hide Makes;
    BoxMakes(0, Six(1, 0, 1, 0, 1, 1), 3, 5, 9);
    BoxMakes(1, Six(0, 1, 0, 1, 1, 1), 1, 11, 10);
    BoxMakes(2, Six(1, 0, 0, 0, 0, 0), 2, 0, 13);
    BoxMakes(3, Six(1, 0, 1, 0, 1, 1), 3, 5, 1);
    BoxMakes(4, Six(0, 1, 1, 1, 0, 1), 1, 14, 8);
    BoxMakes(5, Six(0, 1, 1, 0, 1, 1), 1, 13, 11);
    BoxMakes(6, Six(1, 0, 0, 0, 1, 0), 2, 1, 4);
    BoxMakes(7, Six(1, 1, 0, 0, 0, 1), 3, 8, 15);
  }

  lemma Round13(p: (HalfBlock, HalfBlock))
    requires Reached(p, AllKeys(12), HALF12, HALF13)
    ensures Reached(p, AllKeys(13), HALF13, HALF14)
  {
    hide Makes, Reached, Spelled, SpelledKey;
    var c := [Six(1, 0, 1, 0, 1, 1), Six(0, 1, 0, 1, 1, 1), Six(1, 0, 0, 0, 0, 0), Six(1, 0, 1, 0, 1, 1),
      Six(0, 1, 1, 1, 0, 1), Six(0, 1, 1, 0, 1, 1), Six(1, 0, 0, 0, 1, 0), Six(1, 1, 0, 0, 0, 1)];
    var o := [X9, XA, XD, X1, X8, XB, X4, XF];
    Boxes13();
    NextRound(p, AllKeys(12), HALF12, HALF13, KEY13, c, o, HALF14);
  }

  lemma Boxes14()
    ensures Makes(0, Six(0, 1, 0, 1, 0, 0), X6) && Makes(1, Six(0, 0, 0, 1, 0, 1), X4)
    ensures Makes(2, Six(0, 1, 0, 1, 1, 0), X7) && Makes(3, Six(1, 1, 0, 0, 0, 1), X9)
    ensures Makes(4, Six(0, 1, 1, 1, 1, 0), X9) && Makes(5, Six(0, 0, 0, 1, 0, 0), XA)
    ensures Makes(6, Six(1, 1, 0, 1, 1, 1), XF) && Makes(7, Six(0, 0, 1, 1, 1, 0), X1)
  {
    hide Makes;
    BoxMakes(0, Six(0, 1, 0, 1, 0, 0), 0, 10, 6);
    BoxMakes(1, Six(0, 0, 0, 1, 0, 1), 1, 2, 4);
    BoxMakes(2, Six(0, 1, 0, 1, 1, 0), 0, 11, 7);
    BoxMakes(3, Six(1, 1, 0, 0, 0, 1), 3, 8, 9);
    BoxMakes(4, Six(0, 1, 1, 1, 1, 0), 0, 15, 9);
    BoxMakes(5, Six(0, 0, 0, 1, 0, 0), 0, 2, 10);
    BoxMakes(6, Six(1, 1, 0, 1, 1, 1), 3, 11, 15);
    BoxMakes(7, Six(0, 0, 1, 1, 1, 0), 0, 7, 1);
  }

  lemma Round14(p: (HalfBlock, HalfBlock))
    requires Reached(p, AllKeys(13), HALF13, HALF14)
    ensures Reached(p, AllKeys(14), HALF14, HALF15)
  {
    hide Makes, Reached, Spelled, SpelledKey;
    var c := [Six(0, 1, 0, 1, 0, 0), Six(0, 0, 0, 1, 0, 1), Six(0, 1, 0, 1, 1, 0), Six(1, 1, 0, 0, 0, 1),
      Six(0, 1, 1, 1, 1, 0), Six(0, 0, 0, 1, 0, 0), Six(1, 1, 0, 1, 1, 1), Six(0, 0, 1, 1, 1, 0)];
    var o := [X6, X4, X7, X9, X9, XA, XF, X1];
    Boxes14();
    NextRound(p, AllKeys(13), HALF13, HALF14, KEY14, c, o, HALF15);
  }

  lemma Boxes15()
    ensures Makes(0, Six(0, 1, 0, 1, 1, 1), XB) && Makes(1, Six(1, 1, 1, 1, 0, 0), X2)
    ensures Makes(2, Six(0, 1, 0, 1, 1, 1), XE) && Makes(3, Six(0, 1, 0, 1, 0, 0), X8)
    ensures Makes(4, Six(0, 1, 1, 1, 0, 1), X8) && Makes(5, Six(1, 1, 1, 1, 1, 1), XD)
    ensures Makes(6, Six(1, 1, 1, 1, 0, 1), X3) && Makes(7, Six(0, 1, 0, 0, 0, 1), XC)
  {
    hide Makes;
    BoxMakes(0, Six(0, 1, 0, 1, 1, 1), 1, 11, 11);
    BoxMakes(1, Six(1, 1, 1, 1, 0, 0), 2, 14, 2);
    BoxMakes(2, Six(0, 1, 0, 1, 1, 1), 1, 11, 14);
    BoxMakes(3, Six(0, 1, 0, 1, 0, 0), 0, 10, 8);
    BoxMakes(4, Six(0, 1, 1, 1, 0, 1), 1, 14, 8);
    BoxMakes(5, Six(1, 1, 1, 1, 1, 1), 3, 15, 13);
    BoxMakes(6, Six(1, 1, 1, 1, 0, 1), 3, 14, 3);
    BoxMakes(7, Six(0, 1, 0, 0, 0, 1), 1, 8, 12);
  }

  lemma Round15(p: (HalfBlock, HalfBlock))
    requires Reached(p, AllKeys(14), HALF14, HALF15)
    ensures Reached(p, AllKeys(15), HALF15, HALF16)
  {
    hide Makes, Reached, Spelled, SpelledKey;
    var c := [Six(0, 1, 0, 1, 1, 1), Six(1, 1, 1, 1, 0, 0), Six(0, 1, 0, 1, 1, 1), Six(0, 1, 0, 1, 0, 0),
      Six(0, 1, 1, 1, 0, 1), Six(1, 1, 1, 1, 1, 1), Six(1, 1, 1, 1, 0, 1), Six(0, 1, 0, 0, 0, 1)];
    var o := [XB, X2, XE, X8, X8, XD, X3, XC];
    Boxes15();
    NextRound(p, AllKeys(14), HALF14, HALF15, KEY15, c, o, HALF16);
  }

  lemma Boxes16()
    ensures Makes(0, Six(1, 1, 1, 0, 1, 0), XA) && Makes(1, Six(1, 1, 0, 1, 0, 1), X7)
    ensures Makes(2, Six(0, 1, 1, 1, 1, 0), X8) && Makes(3, Six(0, 0, 1, 1, 1, 1), X3)
    ensures Makes(4, Six(0, 0, 0, 1, 0, 1), X2) && Makes(5, Six(0, 0, 0, 1, 0, 1), X4)
    ensures Makes(6, Six(0, 1, 1, 0, 0, 1), X2) && Makes(7, Six(0, 1, 1, 1, 0, 1), X9)
  {
    hide Makes;
    BoxMakes(0, Six(1, 1, 1, 0, 1, 0), 2, 13, 10);
    BoxMakes(1, Six(1, 1, 0, 1, 0, 1), 3, 10, 7);
    BoxMakes(2, Six(0, 1, 1, 1, 1, 0), 0, 15, 8);
    BoxMakes(3, Six(0, 0, 1, 1, 1, 1), 1, 7, 3);
    BoxMakes(4, Six(0, 0, 0, 1, 0, 1), 1, 2, 2);
    BoxMakes(5, Six(0, 0, 0, 1, 0, 1), 1, 2, 4);
    BoxMakes(6, Six(0, 1, 1, 0, 0, 1), 1, 12, 2);
    BoxMakes(7, Six(0, 1, 1, 1, 0, 1), 1, 14, 9);
  }

  lemma Round16(p: (HalfBlock, HalfBlock))
    requires Reached(p, AllKeys(15), HALF15, HALF16)
    ensures Reached(p, AllKeys(16), HALF16, HALF17)
  {
    hide Makes, Reached, Spelled, SpelledKey;
    var c := [Six(1, 1, 1, 0, 1, 0), Six(1, 1, 0, 1, 0, 1), Six(0, 1, 1, 1, 1, 0), Six(0, 0, 1, 1, 1, 1),
      Six(0, 0, 0, 1, 0, 1), Six(0, 0, 0, 1, 0, 1), Six(0, 1, 1, 0, 0, 1), Six(0, 1, 1, 1, 0, 1)];
    var o := [XA, X7, X8, X3, X2, X4, X2, X9];
    Boxes16();
    NextRound(p, AllKeys(15), HALF15, HALF16, KEY16, c, o, HALF17);
  }

  // ---------------------------------------------------------------- the answer

  lemma KeysAre(key: Block)
    requires Scheduled(key, 0, LEFT0, RIGHT0, [])
    ensures RoundKeys(key, 16) == AllKeys(16)
  {
    hide AllKeys, Spelled;
    assert Scheduled(key, 16, LEFT16, RIGHT16, AllKeys(16)) by {
      hide Scheduled;
      assert AllKeys(0) == [];
      Key1(key);
      Key2(key);
      Key3(key);
      Key4(key);
      Key5(key);
      Key6(key);
      Key7(key);
      Key8(key);
      Key9(key);
      Key10(key);
      Key11(key);
      Key12(key);
      Key13(key);
      Key14(key);
      Key15(key);
      Key16(key);
    }
  }

  lemma RoundsAre(p: (HalfBlock, HalfBlock))
    requires Reached(p, [], HALF0, HALF1)
    ensures Reached(p, AllKeys(16), HALF16, HALF17)
  {
    hide Reached, AllKeys;
    assert AllKeys(0) == [];
    Round1(p);
    Round2(p);
    Round3(p);
    Round4(p);
    Round5(p);
    Round6(p);
    Round7(p);
    Round8(p);
    Round9(p);
    Round10(p);
    Round11(p);
    Round12(p);
    Round13(p);
    Round14(p);
    Round15(p);
    Round16(p);
  }

  const KEY: seq<Byte> := [0x13, 0x34, 0x57, 0x79, 0x9B, 0xBC, 0xDF, 0xF1]
  const PLAIN: seq<Byte> := [0x01, 0x23, 0x45, 0x67, 0x89, 0xAB, 0xCD, 0xEF]
  const CIPHERED: seq<Byte> := [0x85, 0xE8, 0x13, 0x54, 0x0F, 0x0A, 0xB4, 0x05]

  lemma KeyDigits()
    ensures HexOf(KEY) == [X1, X3, X3, X4, X5, X7, X7, X9, X9, XB, XB, XC, XD, XF, XF, X1]
  {
    DigitsAre(KEY, [X1, X3, X3, X4, X5, X7, X7, X9, X9, XB, XB, XC, XD, XF, XF, X1]);
  }

  lemma PlainDigits()
    ensures HexOf(PLAIN) == [X0, X1, X2, X3, X4, X5, X6, X7, X8, X9, XA, XB, XC, XD, XE, XF]
  {
    DigitsAre(PLAIN, [X0, X1, X2, X3, X4, X5, X6, X7, X8, X9, XA, XB, XC, XD, XE, XF]);
  }

  lemma CipheredDigits()
    ensures HexOf(CIPHERED) == [X8, X5, XE, X8, X1, X3, X5, X4, X0, XF, X0, XA, XB, X4, X0, X5]
  {
    DigitsAre(CIPHERED, [X8, X5, XE, X8, X1, X3, X5, X4, X0, XF, X0, XA, XB, X4, X0, X5]);
  }

  lemma CipheredHalves()
    ensures [X8, X5, XE, X8, X1, X3, X5, X4, X0, XF, X0, XA, XB, X4, X0, X5] ==
      [X8, X5, XE, X8, X1, X3, X5, X4] + [X0, XF, X0, XA, XB, X4, X0, X5]
  {
  }

  lemma KeyIsScheduled()
    ensures RoundKeys(Bits(KEY), 16) == AllKeys(16)
  {
    hide Spelled, KeepsLeft, KeepsRight, Kept, Scheduled, RoundKeys, AllKeys, Bits, HexOf;
    KeyDigits();
    BitsAreHex(KEY);
    KeepsLeftHalf();
    KeepsRightHalf();
    KeptIs(HexOf(KEY), LEFT0, RIGHT0);
    ScheduleStarts(Bits(KEY), LEFT0, RIGHT0);
    KeysAre(Bits(KEY));
  }

  lemma BlockIsOpened()
    ensures Initial(Bits(PLAIN)) == Spelled(HALF0) + Spelled(HALF1)
  {
    hide Spelled, OpensLeft, OpensRight, Initial, Bits, HexOf;
    PlainDigits();
    BitsAreHex(PLAIN);
    OpensLeftHalf();
    OpensRightHalf();
    InitialIs(HexOf(PLAIN), HALF0, HALF1);
  }

  lemma BlockIsClosed()
    ensures Final(Spelled(HALF17) + Spelled(HALF16)) == Bits(CIPHERED)
  {
    hide Spelled, ClosesLeft, ClosesRight, Final, Bits, HexOf;
    CipheredDigits();
    CipheredHalves();
    BitsAreHex(CIPHERED);
    assert HALF17 + HALF16 == [X0, XA, X4, XC, XD, X9, X9, X5, X4, X3, X4, X2, X3, X2, X3, X4];
    ClosesLeftHalf();
    ClosesRightHalf();
    Splits(HALF17, HALF16);
    Splits([X8, X5, XE, X8, X1, X3, X5, X4], [X0, XF, X0, XA, XB, X4, X0, X5]);
    FinalIs(HALF17 + HALF16, [X8, X5, XE, X8, X1, X3, X5, X4], [X0, XF, X0, XA, XB, X4, X0, X5]);
  }

  /** What the standard answers to this block under this key. The sixteen rounds
      take every row of every box. */
  lemma KnownAnswer()
    ensures EncryptBlock(KEY, PLAIN) == CIPHERED
  {
    hide Spelled, Initial, Final, Rounds, RoundKeys, AllKeys, Bits, FromBits;
    KeyIsScheduled();
    BlockIsOpened();
    var b := Initial(Bits(PLAIN));
    assert b[..32] == Spelled(HALF0) && b[32..] == Spelled(HALF1);
    var p: (HalfBlock, HalfBlock) := (b[..32], b[32..]);
    NoRounds(p);
    RoundsAre(p);
    BlockIsClosed();
    assert Cipher(AllKeys(16), Bits(PLAIN)) == Bits(CIPHERED);
    FromBitsInvertsBits(CIPHERED);
  }

  lemma NoRounds(p: (HalfBlock, HalfBlock))
    ensures Rounds(p, []) == p
  {
  }
}
