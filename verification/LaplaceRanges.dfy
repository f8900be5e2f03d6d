/** What the decaying part of the Laplace model still takes, for one range of decays after
    another: RestD(f) is Rest(f, D) for the frequencies that the first magnitude within n
    can have, D the largest decay of the range. */
module LaplaceRanges {
  import opened Arith
  import opened Laplace
  import opened LaplaceTail

  function Rest8195(f: int): int {
    match f
    case 1 => 4 case 2 => 10 case 3 => 12 case _ => 0
  }

  lemma Range8195(fs0: nat, decay: nat)
    requires Model(fs0, decay) && 1 <= decay <= 8195
    ensures TailFits(fs0, decay)
  {
    hide Fallen, TailFits;
    FallsEight(16367, 8186, 4094, 2047, 1023, 511, 255, 127, 63, 8195, 4);
    FallsFour(63, 31, 15, 7, 3, 8195, 0);
    FallsNone(3, 8195);
    forall f | 0 <= f <= 3 ensures Tabled(Rest8195, f, 1, 8195, 0, 12) {}
    RangeFits(fs0, decay, 1, 8195, 3, 0, 12, Rest8195);
  }

  function Rest9557(f: int): int {
    match f
    case 1 => 4 case 2 => 10 case 3 => 12 case _ => 0
  }

  lemma Range9557(fs0: nat, decay: nat)
    requires Model(fs0, decay) && 8196 <= decay <= 9557
    ensures TailFits(fs0, decay)
  {
    hide Fallen, TailFits;
    FallsEight(8180, 4771, 2782, 1622, 946, 551, 321, 187, 109, 9557, 6);
    FallsFour(109, 63, 36, 20, 11, 9557, 2);
    Falls(11, 6, 9557, 1);
    Falls(6, 3, 9557, 0);
    FallsNone(3, 9557);
    forall f | 0 <= f <= 3 ensures Tabled(Rest9557, f, 8196, 9557, 2, 14) {}
    RangeFits(fs0, decay, 8196, 9557, 3, 2, 14, Rest9557);
  }

  function Rest10113(f: int): int {
    match f
    case 1 => 4 case 2 => 10 case 3 => 12 case 4 => 20 case 5 => 24 case 6 => 26 case _ => 0
  }

  lemma Range10113(fs0: nat, decay: nat)
    requires Model(fs0, decay) && 9558 <= decay <= 10113
    ensures TailFits(fs0, decay)
  {
    hide Fallen, TailFits;
    FallsEight(6819, 4209, 2597, 1602, 988, 609, 375, 231, 142, 10113, 6);
    FallsFour(142, 87, 53, 32, 19, 10113, 2);
    Falls(19, 11, 10113, 1);
    Falls(11, 6, 10113, 0);
    FallsNone(6, 10113);
    forall f | 0 <= f <= 6 ensures Tabled(Rest10113, f, 9558, 10113, 4, 14) {}
    RangeFits(fs0, decay, 9558, 10113, 6, 4, 14, Rest10113);
  }

  function Rest10601(f: int): int {
    match f
    case 1 => 4 case 2 => 10 case 3 => 12 case 4 => 20 case 5 => 24 case 6 => 26 case 7 => 36 case _ => 0
  }

  lemma Range10601(fs0: nat, decay: nat)
    requires Model(fs0, decay) && 10114 <= decay <= 10601
    ensures TailFits(fs0, decay)
  {
    hide Fallen, TailFits;
    FallsEight(6263, 4052, 2621, 1695, 1096, 709, 458, 296, 191, 10601, 7);
    FallsFour(191, 123, 79, 51, 32, 10601, 3);
    Falls(32, 20, 10601, 2);
    Falls(20, 12, 10601, 1);
    Falls(12, 7, 10601, 0);
    FallsNone(7, 10601);
    forall f | 0 <= f <= 7 ensures Tabled(Rest10601, f, 10114, 10601, 4, 15) {}
    RangeFits(fs0, decay, 10114, 10601, 7, 4, 15, Rest10601);
  }

  function Rest10922(f: int): int {
    match f
    case 1 => 4 case 2 => 10 case 3 => 12 case 4 => 20 case 5 => 24 case 6 => 26 case 7 => 36 case _ => 0
  }

  lemma Range10922(fs0: nat, decay: nat)
    requires Model(fs0, decay) && 10602 <= decay <= 10922
    ensures TailFits(fs0, decay)
  {
    hide Fallen, TailFits;
    FallsEight(5776, 3850, 2566, 1710, 1139, 759, 505, 336, 223, 10922, 8);
    FallsEight(223, 148, 98, 65, 43, 28, 18, 11, 7, 10922, 0);
    FallsNone(7, 10922);
    forall f | 0 <= f <= 7 ensures Tabled(Rest10922, f, 10602, 10922, 5, 16) {}
    RangeFits(fs0, decay, 10602, 10922, 7, 5, 16, Rest10922);
  }

  function Rest11059(f: int): int {
    match f
    case 1 => 4 case 2 => 10 case 3 => 18 case 4 => 20 case 5 => 30 case 6 => 34 case 7 => 36 case 8 => 48
    case 9 => 54 case 10 => 56 case 11 => 60 case 12 => 74 case 13 => 76 case 14 => 84 case 15 => 88 case 16 => 90
    case 17 => 96 case 18 => 112 case 19 => 114 case 20 => 118 case 21 => 128 case 22 => 130 case 23 => 136
    case 24 => 140 case 25 => 142 case 26 => 150 case 27 => 168 case 28 => 170 case 29 => 174 case 30 => 180
    case 31 => 182 case 32 => 194 case 33 => 198 case 34 => 200 case 35 => 208 case 36 => 214 case 37 => 216
    case 38 => 220 case 39 => 230 case 40 => 232 case 41 => 252 case 42 => 256 case 43 => 262 case 44 => 264
    case 45 => 272 case 46 => 276 case 47 => 278 case _ => 0
  }

  lemma Table11059A(f: int)
    requires 0 <= f <= 11
    ensures Tabled(Rest11059, f, 10923, 11059, 32, 12)
  {
  }

  lemma Table11059B(f: int)
    requires 12 <= f <= 23
    ensures Tabled(Rest11059, f, 10923, 11059, 32, 12)
  {
  }

  lemma Table11059C(f: int)
    requires 24 <= f <= 35
    ensures Tabled(Rest11059, f, 10923, 11059, 32, 12)
  {
  }

  lemma Table11059D(f: int)
    requires 36 <= f <= 47
    ensures Tabled(Rest11059, f, 10923, 11059, 32, 12)
  {
  }

  lemma Range11059(fs0: nat, decay: nat)
    requires Model(fs0, decay) && 10923 <= decay <= 11059
    ensures TailFits(fs0, decay)
  {
    hide *;
    FallsEight(5455, 3682, 2485, 1677, 1131, 763, 515, 347, 234, 11059, 4);
    FallsFour(234, 157, 105, 70, 47, 11059, 0);
    FallsNone(47, 11059);
    forall f | 0 <= f <= 47 ensures Tabled(Rest11059, f, 10923, 11059, 32, 12) {
      if f <= 11 {
        Table11059A(f);
      } else if f <= 23 {
        Table11059B(f);
      } else if f <= 35 {
        Table11059C(f);
      } else {
        Table11059D(f);
      }
    }
    RangeFits(fs0, decay, 10923, 11059, 47, 32, 12, Rest11059);
  }

  function Rest11342(f: int): int {
    match f
    case 1 => 4 case 2 => 10 case 3 => 18 case 4 => 20 case 5 => 30 case 6 => 34 case 7 => 36 case 8 => 48
    case 9 => 54 case 10 => 56 case 11 => 60 case 12 => 74 case 13 => 76 case 14 => 84 case 15 => 88 case 16 => 94
    case 17 => 96 case 18 => 112 case 19 => 116 case 20 => 118 case 21 => 128 case 22 => 134 case 23 => 136
    case 24 => 144 case 25 => 148 case 26 => 150 case 27 => 168 case 28 => 174 case 29 => 178 case _ => 0
  }

  lemma Range11342(fs0: nat, decay: nat)
    requires Model(fs0, decay) && 11060 <= decay <= 11342
    ensures TailFits(fs0, decay)
  {
    hide Fallen, TailFits;
    FallsEight(5318, 3681, 2548, 1763, 1220, 844, 584, 404, 279, 11342, 6);
    FallsFour(279, 193, 133, 92, 63, 11342, 2);
    Falls(63, 43, 11342, 1);
    Falls(43, 29, 11342, 0);
    FallsNone(29, 11342);
    forall f | 0 <= f <= 29 ensures Tabled(Rest11342, f, 11060, 11342, 20, 14) {}
    RangeFits(fs0, decay, 11060, 11342, 29, 20, 14, Rest11342);
  }

  function Rest11609(f: int): int {
    match f
    case 1 => 4 case 2 => 10 case 3 => 18 case 4 => 20 case 5 => 30 case 6 => 34 case 7 => 36 case 8 => 48
    case 9 => 54 case 10 => 58 case 11 => 60 case 12 => 74 case _ => 0
  }

  lemma Range11609(fs0: nat, decay: nat)
    requires Model(fs0, decay) && 11343 <= decay <= 11609
    ensures TailFits(fs0, decay)
  {
    hide Fallen, TailFits;
    FallsEight(5036, 3568, 2528, 1791, 1269, 899, 636, 450, 318, 11609, 9);
    FallsEight(318, 225, 159, 112, 79, 55, 38, 26, 18, 11609, 1);
    Falls(18, 12, 11609, 0);
    FallsNone(12, 11609);
    forall f | 0 <= f <= 12 ensures Tabled(Rest11609, f, 11343, 11609, 9, 17) {}
    RangeFits(fs0, decay, 11343, 11609, 12, 9, 17, Rest11609);
  }

  function Rest11702(f: int): int {
    match f
    case 1 => 4 case 2 => 10 case 3 => 18 case 4 => 20 case 5 => 30 case 6 => 34 case 7 => 36 case 8 => 48
    case 9 => 54 case _ => 0
  }

  lemma Range11702(fs0: nat, decay: nat)
    requires Model(fs0, decay) && 11610 <= decay <= 11702
    ensures TailFits(fs0, decay)
  {
    hide Fallen, TailFits;
    FallsEight(4769, 3406, 2432, 1737, 1240, 885, 632, 451, 322, 11702, 10);
    FallsEight(322, 229, 163, 116, 82, 58, 41, 29, 20, 11702, 2);
    Falls(20, 14, 11702, 1);
    Falls(14, 9, 11702, 0);
    FallsNone(9, 11702);
    forall f | 0 <= f <= 9 ensures Tabled(Rest11702, f, 11610, 11702, 7, 18) {}
    RangeFits(fs0, decay, 11610, 11702, 9, 7, 18, Rest11702);
  }

  function Rest11762(f: int): int {
    match f
    case 1 => 4 case 2 => 10 case 3 => 18 case 4 => 20 case 5 => 30 case 6 => 34 case 7 => 46 case 8 => 48
    case 9 => 54 case 10 => 68 case 11 => 70 case 12 => 74 case 13 => 82 case 14 => 98 case 15 => 100 case 16 => 104
    case 17 => 110 case 18 => 112 case 19 => 122 case 20 => 140 case 21 => 144 case 22 => 146 case 23 => 152
    case 24 => 160 case 25 => 162 case 26 => 166 case 27 => 178 case 28 => 198 case 29 => 200 case 30 => 206
    case 31 => 210 case 32 => 212 case 33 => 220 case 34 => 230 case 35 => 234 case 36 => 236 case 37 => 242
    case 38 => 256 case 39 => 258 case 40 => 280 case _ => 0
  }

  lemma Table11762A(f: int)
    requires 0 <= f <= 13
    ensures Tabled(Rest11762, f, 11703, 11762, 29, 15)
  {
  }

  lemma Table11762B(f: int)
    requires 14 <= f <= 26
    ensures Tabled(Rest11762, f, 11703, 11762, 29, 15)
  {
  }

  lemma Table11762C(f: int)
    requires 27 <= f <= 40
    ensures Tabled(Rest11762, f, 11703, 11762, 29, 15)
  {
  }

  lemma Range11762(fs0: nat, decay: nat)
    requires Model(fs0, decay) && 11703 <= decay <= 11762
    ensures TailFits(fs0, decay)
  {
    hide *;
    FallsEight(4676, 3356, 2409, 1729, 1241, 890, 638, 458, 328, 11762, 7);
    FallsFour(328, 235, 168, 120, 86, 11762, 3);
    Falls(86, 61, 11762, 2);
    Falls(61, 43, 11762, 1);
    Falls(43, 30, 11762, 0);
    FallsNone(30, 11762);
    forall f | 0 <= f <= 40 ensures Tabled(Rest11762, f, 11703, 11762, 29, 15) {
      if f <= 13 {
        Table11762A(f);
      } else if f <= 26 {
        Table11762B(f);
      } else {
        Table11762C(f);
      }
    }
    RangeFits(fs0, decay, 11703, 11762, 40, 29, 15, Rest11762);
  }

  function Rest11948(f: int): int {
    match f
    case 1 => 4 case 2 => 10 case 3 => 18 case 4 => 20 case 5 => 30 case 6 => 34 case 7 => 46 case 8 => 48
    case 9 => 54 case 10 => 68 case 11 => 72 case 12 => 74 case 13 => 82 case 14 => 98 case 15 => 100 case 16 => 106
    case 17 => 110 case 18 => 120 case 19 => 122 case 20 => 140 case 21 => 144 case 22 => 152 case 23 => 154
    case 24 => 160 case 25 => 172 case 26 => 174 case 27 => 178 case 28 => 198 case 29 => 204 case 30 => 206
    case 31 => 216 case 32 => 220 case 33 => 228 case 34 => 230 case 35 => 244 case 36 => 248 case 37 => 250
    case 38 => 256 case _ => 0
  }

  lemma Table11948A(f: int)
    requires 0 <= f <= 12
    ensures Tabled(Rest11948, f, 11763, 11948, 28, 15)
  {
  }

  lemma Table11948B(f: int)
    requires 13 <= f <= 25
    ensures Tabled(Rest11948, f, 11763, 11948, 28, 15)
  {
  }

  lemma Table11948C(f: int)
    requires 26 <= f <= 38
    ensures Tabled(Rest11948, f, 11763, 11948, 28, 15)
  {
  }

  lemma Range11948(fs0: nat, decay: nat)
    requires Model(fs0, decay) && 11763 <= decay <= 11948
    ensures TailFits(fs0, decay)
  {
    hide *;
    FallsEight(4616, 3366, 2454, 1789, 1304, 950, 692, 504, 367, 11948, 7);
    FallsFour(367, 267, 194, 141, 102, 11948, 3);
    Falls(102, 74, 11948, 2);
    Falls(74, 53, 11948, 1);
    Falls(53, 38, 11948, 0);
    FallsNone(38, 11948);
    forall f | 0 <= f <= 38 ensures Tabled(Rest11948, f, 11763, 11948, 28, 15) {
      if f <= 12 {
        Table11948A(f);
      } else if f <= 25 {
        Table11948B(f);
      } else {
        Table11948C(f);
      }
    }
    RangeFits(fs0, decay, 11763, 11948, 38, 28, 15, Rest11948);
  }

  function Rest12072(f: int): int {
    match f
    case 1 => 4 case 2 => 10 case 3 => 18 case 4 => 20 case 5 => 30 case 6 => 34 case 7 => 46 case 8 => 48
    case 9 => 54 case 10 => 68 case 11 => 72 case 12 => 74 case 13 => 82 case 14 => 98 case 15 => 104 case 16 => 106
    case 17 => 110 case 18 => 120 case 19 => 122 case 20 => 140 case _ => 0
  }

  lemma Range12072(fs0: nat, decay: nat)
    requires Model(fs0, decay) && 11949 <= decay <= 12072
    ensures TailFits(fs0, decay)
  {
    hide Fallen, TailFits;
    FallsEight(4430, 3264, 2404, 1771, 1304, 960, 707, 520, 383, 12072, 10);
    FallsEight(383, 282, 207, 152, 111, 81, 59, 43, 31, 12072, 2);
    Falls(31, 22, 12072, 1);
    Falls(22, 16, 12072, 0);
    FallsNone(16, 12072);
    forall f | 0 <= f <= 20 ensures Tabled(Rest12072, f, 11949, 12072, 15, 18) {}
    RangeFits(fs0, decay, 11949, 12072, 20, 15, 18, Rest12072);
  }

  function Rest12287(f: int): int {
    match f
    case 1 => 4 case 2 => 10 case 3 => 18 case 4 => 20 case 5 => 30 case 6 => 34 case 7 => 46 case 8 => 48
    case 9 => 54 case 10 => 68 case 11 => 72 case 12 => 74 case 13 => 82 case 14 => 98 case 15 => 104 case 16 => 106
    case _ => 0
  }

  lemma Range12287(fs0: nat, decay: nat)
    requires Model(fs0, decay) && 12073 <= decay <= 12287
    ensures TailFits(fs0, decay)
  {
    hide Fallen, TailFits;
    FallsEight(4306, 3229, 2421, 1815, 1361, 1020, 764, 572, 428, 12287, 11);
    FallsEight(428, 320, 239, 179, 134, 100, 74, 55, 41, 12287, 3);
    Falls(41, 30, 12287, 2);
    Falls(30, 22, 12287, 1);
    Falls(22, 16, 12287, 0);
    FallsNone(16, 12287);
    forall f | 0 <= f <= 16 ensures Tabled(Rest12287, f, 12073, 12287, 12, 19) {}
    RangeFits(fs0, decay, 12073, 12287, 16, 12, 19, Rest12287);
  }

  function Rest12336(f: int): int {
    match f
    case 1 => 4 case 2 => 10 case 3 => 18 case 4 => 28 case 5 => 30 case 6 => 42 case 7 => 46 case 8 => 60
    case 9 => 62 case 10 => 68 case 11 => 84 case 12 => 88 case 13 => 90 case 14 => 98 case 15 => 116 case 16 => 122
    case 17 => 124 case 18 => 128 case 19 => 138 case 20 => 158 case 21 => 160 case 22 => 168 case 23 => 172
    case 24 => 178 case 25 => 180 case 26 => 192 case 27 => 214 case 28 => 218 case 29 => 220 case 30 => 230
    case 31 => 236 case 32 => 244 case 33 => 246 case 34 => 250 case 35 => 264 case 36 => 288 case 37 => 290
    case 38 => 296 case 39 => 300 case 40 => 312 case 41 => 314 case 42 => 322 case 43 => 332 case 44 => 336
    case 45 => 338 case 46 => 344 case 47 => 360 case 48 => 386 case 49 => 388 case 50 => 392 case 51 => 400
    case 52 => 406 case 53 => 408 case 54 => 422 case 55 => 426 case 56 => 436 case 57 => 438 case 58 => 450
    case 59 => 456 case 60 => 460 case 61 => 462 case 62 => 470 case 63 => 488 case 64 => 516 case 65 => 518
    case 66 => 522 case 67 => 528 case 68 => 538 case 69 => 540 case 70 => 548 case 71 => 552 case 72 => 568
    case 73 => 570 case 74 => 576 case 75 => 588 case 76 => 592 case 77 => 594 case 78 => 608 case 79 => 616
    case 80 => 622 case 81 => 624 case 82 => 628 case 83 => 638 case 84 => 658 case 85 => 660 case 86 => 690
    case _ => 0
  }

  lemma Table12336A(f: int)
    requires 0 <= f <= 14
    ensures Tabled(Rest12336, f, 12288, 12336, 65, 14)
  {
  }

  lemma Table12336B(f: int)
    requires 15 <= f <= 28
    ensures Tabled(Rest12336, f, 12288, 12336, 65, 14)
  {
  }

  lemma Table12336C(f: int)
    requires 29 <= f <= 43
    ensures Tabled(Rest12336, f, 12288, 12336, 65, 14)
  {
  }

  lemma Table12336D(f: int)
    requires 44 <= f <= 57
    ensures Tabled(Rest12336, f, 12288, 12336, 65, 14)
  {
  }

  lemma Table12336E(f: int)
    requires 58 <= f <= 71
    ensures Tabled(Rest12336, f, 12288, 12336, 65, 14)
  {
  }

  lemma Table12336F(f: int)
    requires 72 <= f <= 86
    ensures Tabled(Rest12336, f, 12288, 12336, 65, 14)
  {
  }

  lemma Range12336(fs0: nat, decay: nat)
    requires Model(fs0, decay) && 12288 <= decay <= 12336
    ensures TailFits(fs0, decay)
  {
    hide *;
    FallsEight(4092, 3080, 2319, 1746, 1314, 989, 744, 560, 421, 12336, 6);
    FallsFour(421, 316, 237, 178, 134, 12336, 2);
    Falls(134, 100, 12336, 1);
    Falls(100, 75, 12336, 0);
    FallsNone(75, 12336);
    forall f | 0 <= f <= 86 ensures Tabled(Rest12336, f, 12288, 12336, 65, 14) {
      if f <= 14 {
        Table12336A(f);
      } else if f <= 28 {
        Table12336B(f);
      } else if f <= 43 {
        Table12336C(f);
      } else if f <= 57 {
        Table12336D(f);
      } else if f <= 71 {
        Table12336E(f);
      } else {
        Table12336F(f);
      }
    }
    RangeFits(fs0, decay, 12288, 12336, 86, 65, 14, Rest12336);
  }

  function Rest12483(f: int): int {
    match f
    case 1 => 4 case 2 => 10 case 3 => 18 case 4 => 28 case 5 => 30 case 6 => 42 case 7 => 46 case 8 => 60
    case 9 => 62 case 10 => 68 case 11 => 84 case 12 => 88 case 13 => 90 case 14 => 98 case 15 => 116 case 16 => 122
    case 17 => 124 case 18 => 128 case 19 => 138 case 20 => 158 case 21 => 160 case 22 => 168 case 23 => 172
    case 24 => 178 case 25 => 190 case 26 => 192 case 27 => 214 case 28 => 218 case 29 => 228 case 30 => 230
    case 31 => 236 case 32 => 244 case 33 => 258 case 34 => 260 case 35 => 264 case 36 => 288 case 37 => 294
    case 38 => 296 case 39 => 308 case 40 => 312 case 41 => 320 case 42 => 322 case 43 => 332 case 44 => 348
    case 45 => 352 case 46 => 358 case 47 => 360 case 48 => 386 case 49 => 394 case 50 => 398 case 51 => 400
    case _ => 0
  }

  lemma Table12483A(f: int)
    requires 0 <= f <= 12
    ensures Tabled(Rest12483, f, 12337, 12483, 39, 16)
  {
  }

  lemma Table12483B(f: int)
    requires 13 <= f <= 25
    ensures Tabled(Rest12483, f, 12337, 12483, 39, 16)
  {
  }

  lemma Table12483C(f: int)
    requires 26 <= f <= 38
    ensures Tabled(Rest12483, f, 12337, 12483, 39, 16)
  {
  }

  lemma Table12483D(f: int)
    requires 39 <= f <= 51
    ensures Tabled(Rest12483, f, 12337, 12483, 39, 16)
  {
  }

  lemma Range12483(fs0: nat, decay: nat)
    requires Model(fs0, decay) && 12337 <= decay <= 12483
    ensures TailFits(fs0, decay)
  {
    hide *;
    FallsEight(4043, 3080, 2346, 1787, 1361, 1036, 789, 601, 457, 12483, 8);
    FallsEight(457, 348, 265, 201, 153, 116, 88, 67, 51, 12483, 0);
    FallsNone(51, 12483);
    forall f | 0 <= f <= 51 ensures Tabled(Rest12483, f, 12337, 12483, 39, 16) {
      if f <= 12 {
        Table12483A(f);
      } else if f <= 25 {
        Table12483B(f);
      } else if f <= 38 {
        Table12483C(f);
      } else {
        Table12483D(f);
      }
    }
    RangeFits(fs0, decay, 12337, 12483, 51, 39, 16, Rest12483);
  }

  function Rest12701(f: int): int {
    match f
    case 1 => 4 case 2 => 10 case 3 => 18 case 4 => 28 case 5 => 30 case 6 => 42 case 7 => 46 case 8 => 60
    case 9 => 62 case 10 => 68 case 11 => 84 case 12 => 88 case 13 => 96 case 14 => 98 case 15 => 116 case 16 => 122
    case 17 => 132 case 18 => 134 case 19 => 138 case 20 => 158 case 21 => 166 case _ => 0
  }

  lemma Range12701(fs0: nat, decay: nat)
    requires Model(fs0, decay) && 12484 <= decay <= 12701
    ensures TailFits(fs0, decay)
  {
    hide Fallen, TailFits;
    FallsEight(3896, 3020, 2341, 1814, 1406, 1089, 844, 654, 506, 12701, 12);
    FallsEight(506, 392, 303, 234, 181, 140, 108, 83, 64, 12701, 4);
    FallsFour(64, 49, 37, 28, 21, 12701, 0);
    FallsNone(21, 12701);
    forall f | 0 <= f <= 21 ensures Tabled(Rest12701, f, 12484, 12701, 16, 20) {}
    RangeFits(fs0, decay, 12484, 12701, 21, 16, 20, Rest12701);
  }

  function Rest12873(f: int): int {
    match f
    case 1 => 4 case 2 => 10 case 3 => 18 case 4 => 28 case 5 => 30 case 6 => 42 case 7 => 46 case 8 => 60
    case 9 => 66 case 10 => 68 case 11 => 84 case 12 => 92 case 13 => 96 case 14 => 98 case 15 => 116 case 16 => 126
    case _ => 0
  }

  lemma Range12873(fs0: nat, decay: nat)
    requires Model(fs0, decay) && 12702 <= decay <= 12873
    ensures TailFits(fs0, decay)
  {
    hide Fallen, TailFits;
    FallsEight(3678, 2889, 2269, 1782, 1400, 1099, 863, 678, 532, 12873, 14);
    FallsEight(532, 417, 327, 256, 201, 157, 123, 96, 75, 12873, 6);
    FallsFour(75, 58, 45, 35, 27, 12873, 2);
    Falls(27, 21, 12873, 1);
    Falls(21, 16, 12873, 0);
    FallsNone(16, 12873);
    forall f | 0 <= f <= 16 ensures Tabled(Rest12873, f, 12702, 12873, 13, 22) {}
    RangeFits(fs0, decay, 12702, 12873, 16, 13, 22, Rest12873);
  }

  function Rest13107(f: int): int {
    match f
    case 1 => 4 case 2 => 10 case 3 => 18 case 4 => 28 case 5 => 30 case 6 => 42 case 7 => 46 case 8 => 60
    case 9 => 66 case 10 => 68 case 11 => 84 case 12 => 92 case 13 => 96 case 14 => 114 case 15 => 116 case 16 => 126
    case 17 => 132 case 18 => 152 case _ => 0
  }

  lemma Range13107(fs0: nat, decay: nat)
    requires Model(fs0, decay) && 12874 <= decay <= 13107
    ensures TailFits(fs0, decay)
  {
    hide Fallen, TailFits;
    FallsEight(3506, 2804, 2243, 1794, 1435, 1147, 917, 733, 586, 13107, 15);
    FallsEight(586, 468, 374, 299, 239, 191, 152, 121, 96, 13107, 7);
    FallsFour(96, 76, 60, 47, 37, 13107, 3);
    Falls(37, 29, 13107, 2);
    Falls(29, 23, 13107, 1);
    Falls(23, 18, 13107, 0);
    FallsNone(18, 13107);
    forall f | 0 <= f <= 18 ensures Tabled(Rest13107, f, 12874, 13107, 14, 23) {}
    RangeFits(fs0, decay, 12874, 13107, 18, 14, 23, Rest13107);
  }

  function Rest13311(f: int): int {
    match f
    case 1 => 4 case 2 => 10 case 3 => 18 case 4 => 28 case 5 => 40 case 6 => 42 case 7 => 56 case 8 => 60
    case 9 => 76 case 10 => 82 case 11 => 84 case 12 => 102 case 13 => 110 case 14 => 114 case 15 => 134
    case 16 => 136 case 17 => 146 case 18 => 152 case 19 => 174 case 20 => 178 case 21 => 190 case 22 => 192
    case 23 => 200 case 24 => 224 case _ => 0
  }

  lemma Range13311(fs0: nat, decay: nat)
    requires Model(fs0, decay) && 13108 <= decay <= 13311
    ensures TailFits(fs0, decay)
  {
    hide Fallen, TailFits;
    FallsEight(3272, 2658, 2159, 1754, 1425, 1157, 939, 762, 619, 13311, 15);
    FallsEight(619, 502, 407, 330, 268, 217, 176, 142, 115, 13311, 7);
    FallsFour(115, 93, 75, 60, 48, 13311, 3);
    Falls(48, 38, 13311, 2);
    Falls(38, 30, 13311, 1);
    Falls(30, 24, 13311, 0);
    FallsNone(24, 13311);
    forall f | 0 <= f <= 24 ensures Tabled(Rest13311, f, 13108, 13311, 20, 23) {}
    RangeFits(fs0, decay, 13108, 13311, 24, 20, 23, Rest13311);
  }

  function Rest13492(f: int): int {
    match f
    case 1 => 4 case 2 => 10 case 3 => 18 case 4 => 28 case 5 => 40 case 6 => 42 case 7 => 56 case 8 => 60
    case 9 => 76 case 10 => 82 case 11 => 100 case 12 => 102 case 13 => 110 case 14 => 130 case 15 => 134
    case 16 => 144 case 17 => 146 case 18 => 168 case _ => 0
  }

  lemma Range13492(fs0: nat, decay: nat)
    requires Model(fs0, decay) && 13312 <= decay <= 13492
    ensures TailFits(fs0, decay)
  {
    hide Fallen, TailFits;
    FallsEight(3069, 2527, 2080, 1712, 1409, 1160, 955, 786, 647, 13492, 18);
    FallsEight(647, 532, 438, 360, 296, 243, 200, 164, 135, 13492, 10);
    FallsEight(135, 111, 91, 74, 60, 49, 40, 32, 26, 13492, 2);
    Falls(26, 21, 13492, 1);
    Falls(21, 17, 13492, 0);
    FallsNone(17, 13492);
    forall f | 0 <= f <= 18 ensures Tabled(Rest13492, f, 13312, 13492, 15, 26) {}
    RangeFits(fs0, decay, 13312, 13492, 18, 15, 26, Rest13492);
  }

  function Rest13653(f: int): int {
    match f
    case 1 => 4 case 2 => 10 case 3 => 18 case 4 => 28 case 5 => 40 case 6 => 42 case 7 => 56 case 8 => 60
    case 9 => 76 case 10 => 82 case 11 => 100 case 12 => 102 case 13 => 110 case 14 => 130 case _ => 0
  }

  lemma Range13653(fs0: nat, decay: nat)
    requires Model(fs0, decay) && 13493 <= decay <= 13653
    ensures TailFits(fs0, decay)
  {
    hide Fallen, TailFits;
    FallsEight(2888, 2406, 2004, 1669, 1390, 1158, 964, 803, 669, 13653, 20);
    FallsEight(669, 557, 464, 386, 321, 267, 222, 184, 153, 13653, 12);
    FallsEight(153, 127, 105, 87, 72, 59, 49, 40, 33, 13653, 4);
    FallsFour(33, 27, 22, 18, 14, 13653, 0);
    FallsNone(14, 13653);
    forall f | 0 <= f <= 14 ensures Tabled(Rest13653, f, 13493, 13653, 12, 28) {}
    RangeFits(fs0, decay, 13493, 13653, 14, 12, 28, Rest13653);
  }

  function Rest13921(f: int): int {
    match f
    case 1 => 4 case 2 => 10 case 3 => 18 case 4 => 28 case 5 => 40 case 6 => 54 case 7 => 56 case 8 => 72
    case 9 => 76 case 10 => 94 case 11 => 100 case 12 => 120 case 13 => 128 case 14 => 130 case 15 => 152
    case 16 => 162 case 17 => 166 case 18 => 190 case 19 => 202 case 20 => 204 case 21 => 210 case 22 => 236
    case 23 => 250 case 24 => 254 case 25 => 262 case _ => 0
  }

  lemma Range13921(fs0: nat, decay: nat)
    requires Model(fs0, decay) && 13654 <= decay <= 13921
    ensures TailFits(fs0, decay)
  {
    hide Fallen, TailFits;
    FallsEight(2727, 2317, 1968, 1672, 1420, 1206, 1024, 870, 739, 13921, 20);
    FallsEight(739, 627, 532, 452, 384, 326, 276, 234, 198, 13921, 12);
    FallsEight(198, 168, 142, 120, 101, 85, 72, 61, 51, 13921, 4);
    FallsFour(51, 43, 36, 30, 25, 13921, 0);
    FallsNone(25, 13921);
    forall f | 0 <= f <= 25 ensures Tabled(Rest13921, f, 13654, 13921, 21, 28) {}
    RangeFits(fs0, decay, 13654, 13921, 25, 21, 28, Rest13921);
  }

  function Rest14199(f: int): int {
    match f
    case 1 => 4 case 2 => 10 case 3 => 18 case 4 => 28 case 5 => 40 case 6 => 54 case 7 => 70 case 8 => 72
    case 9 => 90 case 10 => 94 case 11 => 114 case 12 => 120 case 13 => 142 case 14 => 150 case 15 => 152
    case 16 => 176 case 17 => 186 case 18 => 190 case _ => 0
  }

  lemma Range14199(fs0: nat, decay: nat)
    requires Model(fs0, decay) && 13922 <= decay <= 14199
    ensures TailFits(fs0, decay)
  {
    hide Fallen, TailFits;
    FallsEight(2459, 2131, 1846, 1599, 1385, 1200, 1039, 900, 779, 14199, 25);
    FallsEight(779, 675, 584, 506, 438, 379, 328, 284, 246, 14199, 17);
    FallsEight(246, 213, 184, 159, 137, 118, 102, 88, 76, 14199, 9);
    FallsEight(76, 65, 56, 48, 41, 35, 30, 25, 21, 14199, 1);
    Falls(21, 18, 14199, 0);
    FallsNone(18, 14199);
    forall f | 0 <= f <= 18 ensures Tabled(Rest14199, f, 13922, 14199, 16, 33) {}
    RangeFits(fs0, decay, 13922, 14199, 18, 16, 33, Rest14199);
  }

  function Rest14563(f: int): int {
    match f
    case 1 => 4 case 2 => 10 case 3 => 18 case 4 => 28 case 5 => 40 case 6 => 54 case 7 => 70 case 8 => 88
    case 9 => 90 case 10 => 110 case 11 => 114 case 12 => 136 case 13 => 142 case 14 => 166 case 15 => 174
    case 16 => 200 case 17 => 210 case 18 => 212 case 19 => 240 case 20 => 252 case 21 => 256 case 22 => 286
    case 23 => 300 case _ => 0
  }

  lemma Range14563(fs0: nat, decay: nat)
    requires Model(fs0, decay) && 14200 <= decay <= 14563
    ensures TailFits(fs0, decay)
  {
    hide Fallen, TailFits;
    FallsEight(2181, 1938, 1722, 1530, 1359, 1207, 1072, 952, 846, 14563, 29);
    FallsEight(846, 751, 667, 592, 526, 467, 415, 368, 327, 14563, 21);
    FallsEight(327, 290, 257, 228, 202, 179, 159, 141, 125, 14563, 13);
    FallsEight(125, 111, 98, 87, 77, 68, 60, 53, 47, 14563, 5);
    FallsFour(47, 41, 36, 31, 27, 14563, 1);
    Falls(27, 23, 14563, 0);
    FallsNone(23, 14563);
    forall f | 0 <= f <= 23 ensures Tabled(Rest14563, f, 14200, 14563, 20, 37) {}
    RangeFits(fs0, decay, 14200, 14563, 23, 20, 37, Rest14563);
  }

  function Rest14894(f: int): int {
    match f
    case 1 => 4 case 2 => 10 case 3 => 18 case 4 => 28 case 5 => 40 case 6 => 54 case 7 => 70 case 8 => 88
    case 9 => 108 case 10 => 130 case 11 => 132 case 12 => 156 case 13 => 160 case 14 => 186 case _ => 0
  }

  lemma Range14894(fs0: nat, decay: nat)
    requires Model(fs0, decay) && 14564 <= decay <= 14894
    ensures TailFits(fs0, decay)
  {
    hide Fallen, TailFits;
    FallsEight(1818, 1652, 1501, 1364, 1239, 1126, 1023, 929, 844, 14894, 40);
    FallsEight(844, 767, 697, 633, 575, 522, 474, 430, 390, 14894, 32);
    FallsEight(390, 354, 321, 291, 264, 239, 217, 197, 179, 14894, 24);
    FallsEight(179, 162, 147, 133, 120, 109, 99, 89, 80, 14894, 16);
    FallsEight(80, 72, 65, 59, 53, 48, 43, 39, 35, 14894, 8);
    FallsEight(35, 31, 28, 25, 22, 19, 17, 15, 13, 14894, 0);
    FallsNone(13, 14894);
    forall f | 0 <= f <= 14 ensures Tabled(Rest14894, f, 14564, 14894, 13, 48) {}
    RangeFits(fs0, decay, 14564, 14894, 14, 13, 48, Rest14894);
  }

  function Rest15291(f: int): int {
    match f
    case 1 => 4 case 2 => 10 case 3 => 18 case 4 => 28 case 5 => 40 case 6 => 54 case 7 => 70 case 8 => 88
    case 9 => 108 case 10 => 130 case 11 => 154 case 12 => 180 case 13 => 208 case 14 => 238 case 15 => 240
    case 16 => 272 case 17 => 276 case 18 => 310 case 19 => 316 case 20 => 352 case _ => 0
  }

  lemma Range15291(fs0: nat, decay: nat)
    requires Model(fs0, decay) && 14895 <= decay <= 15291
    ensures TailFits(fs0, decay)
  {
    hide Fallen, TailFits;
    FallsEight(1487, 1387, 1294, 1207, 1126, 1050, 979, 913, 852, 15291, 50);
    FallsEight(852, 795, 741, 691, 644, 601, 560, 522, 487, 15291, 42);
    FallsEight(487, 454, 423, 394, 367, 342, 319, 297, 277, 15291, 34);
    FallsEight(277, 258, 240, 223, 208, 194, 181, 168, 156, 15291, 26);
    FallsEight(156, 145, 135, 125, 116, 108, 100, 93, 86, 15291, 18);
    FallsEight(86, 80, 74, 69, 64, 59, 55, 51, 47, 15291, 10);
    FallsEight(47, 43, 40, 37, 34, 31, 28, 26, 24, 15291, 2);
    Falls(24, 22, 15291, 1);
    Falls(22, 20, 15291, 0);
    FallsNone(20, 15291);
    forall f | 0 <= f <= 20 ensures Tabled(Rest15291, f, 14895, 15291, 19, 58) {}
    RangeFits(fs0, decay, 14895, 15291, 20, 19, 58, Rest15291);
  }

  function Rest15359(f: int): int {
    match f
    case 1 => 4 case 2 => 10 case 3 => 18 case 4 => 28 case 5 => 40 case _ => 0
  }

  lemma Range15359(fs0: nat, decay: nat)
    requires Model(fs0, decay) && 15292 <= decay <= 15359
    ensures TailFits(fs0, decay)
  {
    hide Fallen, TailFits;
    FallsEight(1090, 1021, 957, 897, 840, 787, 737, 690, 646, 15359, 61);
    FallsEight(646, 605, 567, 531, 497, 465, 435, 407, 381, 15359, 53);
    FallsEight(381, 357, 334, 313, 293, 274, 256, 239, 224, 15359, 45);
    FallsEight(224, 209, 195, 182, 170, 159, 149, 139, 130, 15359, 37);
    FallsEight(130, 121, 113, 105, 98, 91, 85, 79, 74, 15359, 29);
    FallsEight(74, 69, 64, 59, 55, 51, 47, 44, 41, 15359, 21);
    FallsEight(41, 38, 35, 32, 29, 27, 25, 23, 21, 15359, 13);
    FallsEight(21, 19, 17, 15, 14, 13, 12, 11, 10, 15359, 5);
    FallsFour(10, 9, 8, 7, 6, 15359, 1);
    Falls(6, 5, 15359, 0);
    FallsNone(5, 15359);
    forall f | 0 <= f <= 5 ensures Tabled(Rest15359, f, 15292, 15359, 5, 69) {}
    RangeFits(fs0, decay, 15292, 15359, 5, 5, 69, Rest15359);
  }

  /** The tail fits in every model there is. */
  lemma AllTailsFit(fs0: nat, decay: nat)
    requires Model(fs0, decay)
    ensures TailFits(fs0, decay)
  {
    hide TailFits;
    if decay <= 8195 {
      Range8195(fs0, decay);
    } else if decay <= 9557 {
      Range9557(fs0, decay);
    } else if decay <= 10113 {
      Range10113(fs0, decay);
    } else if decay <= 10601 {
      Range10601(fs0, decay);
    } else if decay <= 10922 {
      Range10922(fs0, decay);
    } else if decay <= 11059 {
      Range11059(fs0, decay);
    } else if decay <= 11342 {
      Range11342(fs0, decay);
    } else if decay <= 11609 {
      Range11609(fs0, decay);
    } else if decay <= 11702 {
      Range11702(fs0, decay);
    } else if decay <= 11762 {
      Range11762(fs0, decay);
    } else if decay <= 11948 {
      Range11948(fs0, decay);
    } else if decay <= 12072 {
      Range12072(fs0, decay);
    } else if decay <= 12287 {
      Range12287(fs0, decay);
    } else if decay <= 12336 {
      Range12336(fs0, decay);
    } else if decay <= 12483 {
      Range12483(fs0, decay);
    } else if decay <= 12701 {
      Range12701(fs0, decay);
    } else if decay <= 12873 {
      Range12873(fs0, decay);
    } else if decay <= 13107 {
      Range13107(fs0, decay);
    } else if decay <= 13311 {
      Range13311(fs0, decay);
    } else if decay <= 13492 {
      Range13492(fs0, decay);
    } else if decay <= 13653 {
      Range13653(fs0, decay);
    } else if decay <= 13921 {
      Range13921(fs0, decay);
    } else if decay <= 14199 {
      Range14199(fs0, decay);
    } else if decay <= 14563 {
      Range14563(fs0, decay);
    } else if decay <= 14894 {
      Range14894(fs0, decay);
    } else if decay <= 15291 {
      Range15291(fs0, decay);
    } else if decay <= 15359 {
      Range15359(fs0, decay);
    } else {
      SlowFits(fs0, decay);
    }
  }
}
