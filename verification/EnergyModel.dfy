/** The probability models of the coarse energy, which the Laplace coder may be called
    with. */
module EnergyModel {
  import opened Arith
  import opened Laplace

  /** e_prob_model: for each frame size, inter then intra, the probability of zero
      and the decay of bands 0 to 20, in units of 2^-8. */
  const E_PROB_MODEL: seq<seq<(nat, nat)>> := [
    [(72, 127), (65, 129), (66, 128), (65, 128), (64, 128), (62, 128), (64, 128),
      (64, 128), (92, 78), (92, 79), (92, 78), (90, 79), (116, 41), (115, 40),
      (114, 40), (132, 26), (132, 26), (145, 17), (161, 12), (176, 10), (177, 11)],
    [(24, 179), (48, 138), (54, 135), (54, 132), (53, 134), (56, 133), (55, 132),
      (55, 132), (61, 114), (70, 96), (74, 88), (75, 88), (87, 74), (89, 66),
      (91, 67), (100, 59), (108, 50), (120, 40), (122, 37), (97, 43), (78, 50)],
    [(83, 78), (84, 81), (88, 75), (86, 74), (87, 71), (90, 73), (93, 74),
      (93, 74), (109, 40), (114, 36), (117, 34), (117, 34), (143, 17), (145, 18),
      (146, 19), (162, 12), (165, 10), (178, 7), (189, 6), (190, 8), (177, 9)],
    [(23, 178), (54, 115), (63, 102), (66, 98), (69, 99), (74, 89), (71, 91),
      (73, 91), (78, 89), (86, 80), (92, 66), (93, 64), (102, 59), (103, 60),
      (104, 60), (117, 52), (123, 44), (138, 35), (133, 31), (97, 38), (77, 45)],
    [(61, 90), (93, 60), (105, 42), (107, 41), (110, 45), (116, 38), (113, 38),
      (112, 38), (124, 26), (132, 27), (136, 19), (140, 20), (155, 14), (159, 16),
      (158, 18), (170, 13), (177, 10), (187, 8), (192, 6), (175, 9), (159, 10)],
    [(21, 178), (59, 110), (71, 86), (75, 85), (84, 83), (91, 66), (88, 73),
      (87, 72), (92, 75), (98, 72), (105, 58), (107, 54), (115, 52), (114, 55),
      (112, 56), (129, 51), (132, 40), (150, 33), (140, 29), (98, 35), (77, 42)],
    [(42, 121), (96, 66), (108, 43), (111, 40), (117, 44), (123, 32), (120, 36),
      (119, 33), (127, 33), (134, 34), (139, 21), (147, 23), (152, 20), (158, 25),
      (154, 26), (166, 21), (173, 16), (184, 13), (184, 10), (150, 13), (139, 15)],
    [(22, 178), (63, 114), (74, 82), (84, 83), (92, 82), (103, 62), (96, 72),
      (96, 67), (101, 73), (107, 72), (113, 55), (118, 52), (125, 52), (118, 52),
      (117, 55), (135, 49), (137, 39), (157, 32), (145, 29), (97, 33), (77, 40)]]

  function ModelRow(lm: nat, intra: bool): seq<(nat, nat)>
    requires lm <= 3
  {
    E_PROB_MODEL[2 * lm + if intra then 1 else 0]
  }

  /** A pair that makes a model with a peak. */
  predicate GoodPair(p: (nat, nat)) { 0 < p.0 <= 255 && 0 < p.1 <= 255 }

  lemma InterGood(lm: nat, i: nat)
    requires lm <= 3 && i <= 20
    ensures |ModelRow(lm, false)| == 21 && GoodPair(ModelRow(lm, false)[i])
  {
    if lm == 0 {
    } else if lm == 1 {
    } else if lm == 2 {
    }
  }

  lemma IntraGood(lm: nat, i: nat)
    requires lm <= 3 && i <= 20
    ensures |ModelRow(lm, true)| == 21 && GoodPair(ModelRow(lm, true)[i])
  {
    if lm == 0 {
    } else if lm == 1 {
    } else if lm == 2 {
    }
  }

  /** The coder may be called with every entry, whatever the value. */
  lemma TableFits(lm: nat, intra: bool, i: nat)
    requires lm <= 3 && i <= 20
    ensures |ModelRow(lm, intra)| == 21
    ensures var p := ModelRow(lm, intra)[i]; p.0 > 0 && Model(128 * p.0, 64 * p.1)
  {
    hide ModelRow;
    InterGood(lm, i);
    IntraGood(lm, i);
  }
}
