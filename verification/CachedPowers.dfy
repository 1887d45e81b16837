/** The cached powers of ten (src/fpconv_powers.h): the table, its accuracy, and the search in it. */
module CachedPowers {
  import opened Powers
  import opened Generate

  const N_POWERS: int := 87
  const STEP_POWERS: int := 8
  const FIRST_POWER: int := -348
  const EXP_MAX: int := -32
  const EXP_MIN: int := -60

  /** 10^n for n a multiple of four, in steps that are cheap to evaluate. */
  function Ten(n: int): int {
    if 256 <= n then 10000000000000000000000000000000000000000000000000000000000000000000000000000000000000000000000000000000000000000000000000000000000000000000000000000000000000000000000000000000000000000000000000000000000000000000000000000000000000000000000000000000000000000 * Ten(n - 256)
    else if 128 <= n then 100000000000000000000000000000000000000000000000000000000000000000000000000000000000000000000000000000000000000000000000000000000 * Ten(n - 128)
    else if 64 <= n then 10000000000000000000000000000000000000000000000000000000000000000 * Ten(n - 64)
    else if 32 <= n then 100000000000000000000000000000000 * Ten(n - 32)
    else if 16 <= n then 10000000000000000 * Ten(n - 16)
    else if 8 <= n then 100000000 * Ten(n - 8)
    else if 4 <= n then 10000 * Ten(n - 4)
    else 1
  }

  /** 2^n, likewise. */
  function Two(n: int): int {
    if 1024 <= n then 0x10000000000000000000000000000000000000000000000000000000000000000000000000000000000000000000000000000000000000000000000000000000000000000000000000000000000000000000000000000000000000000000000000000000000000000000000000000000000000000000000000000000000000000 * Two(n - 1024)
    else if 512 <= n then 0x100000000000000000000000000000000000000000000000000000000000000000000000000000000000000000000000000000000000000000000000000000000 * Two(n - 512)
    else if 256 <= n then 0x10000000000000000000000000000000000000000000000000000000000000000 * Two(n - 256)
    else if 128 <= n then 0x100000000000000000000000000000000 * Two(n - 128)
    else if 64 <= n then 0x10000000000000000 * Two(n - 64)
    else if 32 <= n then 0x100000000 * Two(n - 32)
    else if 16 <= n then 0x10000 * Two(n - 16)
    else if 8 <= n then 256 * Two(n - 8)
    else if 4 <= n then 16 * Two(n - 4)
    else if 2 <= n then 4 * Two(n - 2)
    else if 1 <= n then 2 * Two(n - 1)
    else 1
  }

  /** frac / 2^n is within half of 1 / 2^n of 1 / 10^m. */
  predicate NearTiny(frac: int, n: int, m: int) {
    (2 * frac - 1) * Ten(m) <= 2 * Two(n) <= (2 * frac + 1) * Ten(m)
  }

  /** frac * 2^n is within half of 2^n of 10^m. */
  predicate NearHuge(frac: int, n: int, m: int) {
    (2 * frac - 1) * Two(n) <= 2 * Ten(m) <= (2 * frac + 1) * Two(n)
  }

  /** A normalized approximation frac * 2^exp of 10^k. */
  datatype Power = Power(frac: int, exp: int, k: int)

  /** Half a unit in the last place, in integers: the three cases are the signs of k and exp. */
  predicate Accurate(c: Power) {
    && 0x8000_0000_0000_0000 <= c.frac < TWO64 && c.k % 4 == 0
    && if c.k < 0 then c.exp < 0 && NearTiny(c.frac, -c.exp, -c.k)
       else if c.exp <= 0 then c.frac == Ten(c.k) * Two(-c.exp)
       else NearHuge(c.frac, c.exp, c.k)
  }

  /** The power of ten that entry idx approximates. */
  function Decade(idx: int): int {
    FIRST_POWER + idx * STEP_POWERS
  }

  /** The exponent of a normalized approximation of 10^k. */
  function BinaryMagnitude(k: int): int {
    k * 217706 / 65536 - 63
  }

  // ----- the table -----

  function Row0(idx: int): (c: Power)
    requires 0 <= idx < 8
    ensures c.k == Decade(idx) && c.exp == BinaryMagnitude(c.k)
  {
    match idx
    case 0 => Power(18054884314459144840, -1220, -348)
    case 1 => Power(13451937075301367670, -1193, -340)
    case 2 => Power(10022474136428063862, -1166, -332)
    case 3 => Power(14934650266808366570, -1140, -324)
    case 4 => Power(11127181549972568877, -1113, -316)
    case 5 => Power(16580792590934885855, -1087, -308)
    case 6 => Power(12353653155963782858, -1060, -300)
    case _ => Power(18408377700990114895, -1034, -292)
  }

  function Row1(idx: int): (c: Power)
    requires 8 <= idx < 16
    ensures c.k == Decade(idx) && c.exp == BinaryMagnitude(c.k)
  {
    match idx
    case 8 => Power(13715310171984221708, -1007, -284)
    case 9 => Power(10218702384817765436, -980, -276)
    case 10 => Power(15227053142812498563, -954, -268)
    case 11 => Power(11345038669416679861, -927, -260)
    case 12 => Power(16905424996341287883, -901, -252)
    case 13 => Power(12595523146049147757, -874, -244)
    case 14 => Power(9384396036005875287, -847, -236)
    case _ => Power(13983839803942852151, -821, -228)
  }

  function Row2(idx: int): (c: Power)
    requires 16 <= idx < 24
    ensures c.k == Decade(idx) && c.exp == BinaryMagnitude(c.k)
  {
    match idx
    case 16 => Power(10418772551374772303, -794, -220)
    case 17 => Power(15525180923007089351, -768, -212)
    case 18 => Power(11567161174868858868, -741, -204)
    case 19 => Power(17236413322193710309, -715, -196)
    case 20 => Power(12842128665889583758, -688, -188)
    case 21 => Power(9568131466127621947, -661, -180)
    case 22 => Power(14257626930069360058, -635, -172)
    case _ => Power(10622759856335341974, -608, -164)
  }

  function Row3(idx: int): (c: Power)
    requires 24 <= idx < 32
    ensures c.k == Decade(idx) && c.exp == BinaryMagnitude(c.k)
  {
    match idx
    case 24 => Power(15829145694278690180, -582, -156)
    case 25 => Power(11793632577567316726, -555, -148)
    case 26 => Power(17573882009934360870, -529, -140)
    case 27 => Power(13093562431584567480, -502, -132)
    case 28 => Power(9755464219737475723, -475, -124)
    case 29 => Power(14536774485912137811, -449, -116)
    case 30 => Power(10830740992659433045, -422, -108)
    case _ => Power(16139061738043178685, -396, -100)
  }

  function Row4(idx: int): (c: Power)
    requires 32 <= idx < 40
    ensures c.k == Decade(idx) && c.exp == BinaryMagnitude(c.k)
  {
    match idx
    case 32 => Power(12024538023802026127, -369, -92)
    case 33 => Power(17917957937422433684, -343, -84)
    case 34 => Power(13349918974505688015, -316, -76)
    case 35 => Power(9946464728195732843, -289, -68)
    case 36 => Power(14821387422376473014, -263, -60)
    case 37 => Power(11042794154864902060, -236, -52)
    case 38 => Power(16455045573212060422, -210, -44)
    case _ => Power(12259964326927110867, -183, -36)
  }

  function Row5(idx: int): (c: Power)
    requires 40 <= idx < 48
    ensures c.k == Decade(idx) && c.exp == BinaryMagnitude(c.k)
  {
    match idx
    case 40 => Power(18268770466636286478, -157, -28)
    case 41 => Power(13611294676837538539, -130, -20)
    case 42 => Power(10141204801825835212, -103, -12)
    case 43 => Power(15111572745182864684, -77, -4)
    case 44 => Power(11258999068426240000, -50, 4)
    case 45 => Power(16777216000000000000, -24, 12)
    case 46 => Power(12500000000000000000, 3, 20)
    case _ => Power(9313225746154785156, 30, 28)
  }

  function Row6(idx: int): (c: Power)
    requires 48 <= idx < 56
    ensures c.k == Decade(idx) && c.exp == BinaryMagnitude(c.k)
  {
    match idx
    case 48 => Power(13877787807814456755, 56, 36)
    case 49 => Power(10339757656912845936, 83, 44)
    case 50 => Power(15407439555097886824, 109, 52)
    case 51 => Power(11479437019748901445, 136, 60)
    case 52 => Power(17105694144590052135, 162, 68)
    case 53 => Power(12744735289059618216, 189, 76)
    case 54 => Power(9495567745759798747, 216, 84)
    case _ => Power(14149498560666738074, 242, 92)
  }

  function Row7(idx: int): (c: Power)
    requires 56 <= idx < 64
    ensures c.k == Decade(idx) && c.exp == BinaryMagnitude(c.k)
  {
    match idx
    case 56 => Power(10542197943230523224, 269, 100)
    case 57 => Power(15709099088952724970, 295, 108)
    case 58 => Power(11704190886730495818, 322, 116)
    case 59 => Power(17440603504673385349, 348, 124)
    case 60 => Power(12994262207056124023, 375, 132)
    case 61 => Power(9681479787123295682, 402, 140)
    case 62 => Power(14426529090290212157, 428, 148)
    case _ => Power(10748601772107342003, 455, 156)
  }

  function Row8(idx: int): (c: Power)
    requires 64 <= idx < 72
    ensures c.k == Decade(idx) && c.exp == BinaryMagnitude(c.k)
  {
    match idx
    case 64 => Power(16016664761464807395, 481, 164)
    case 65 => Power(11933345169920330789, 508, 172)
    case 66 => Power(17782069995880619868, 534, 180)
    case 67 => Power(13248674568444952270, 561, 188)
    case 68 => Power(9871031767461413346, 588, 196)
    case 69 => Power(14708983551653345445, 614, 204)
    case 70 => Power(10959046745042015199, 641, 212)
    case _ => Power(16330252207878254650, 667, 220)
  }

  function Row9(idx: int): (c: Power)
    requires 72 <= idx < 80
    ensures c.k == Decade(idx) && c.exp == BinaryMagnitude(c.k)
  {
    match idx
    case 72 => Power(12166986024289022870, 694, 228)
    case 73 => Power(18130221999122236476, 720, 236)
    case 74 => Power(13508068024458167312, 747, 244)
    case 75 => Power(10064294952495520794, 774, 252)
    case 76 => Power(14996968138956309548, 800, 260)
    case 77 => Power(11173611982879273257, 827, 268)
    case 78 => Power(16649979327439178909, 853, 276)
    case _ => Power(12405201291620119593, 880, 284)
  }

  function Row10(idx: int): (c: Power)
    requires 80 <= idx < 87
    ensures c.k == Decade(idx) && c.exp == BinaryMagnitude(c.k)
  {
    match idx
    case 80 => Power(9242595204427927429, 907, 292)
    case 81 => Power(13772540099066387757, 933, 300)
    case 82 => Power(10261342003245940623, 960, 308)
    case 83 => Power(15290591125556738113, 986, 316)
    case 84 => Power(11392378155556871081, 1013, 324)
    case 85 => Power(16975966327722178521, 1039, 332)
    case _ => Power(12648080533535911531, 1066, 340)
  }

  function PowersTen(idx: int): (c: Power)
    requires 0 <= idx < N_POWERS
    ensures c.k == Decade(idx) && c.exp == BinaryMagnitude(c.k)
  {
    if idx < 8 then Row0(idx)
    else if idx < 16 then Row1(idx)
    else if idx < 24 then Row2(idx)
    else if idx < 32 then Row3(idx)
    else if idx < 40 then Row4(idx)
    else if idx < 48 then Row5(idx)
    else if idx < 56 then Row6(idx)
    else if idx < 64 then Row7(idx)
    else if idx < 72 then Row8(idx)
    else if idx < 80 then Row9(idx)
    else Row10(idx)
  }

  // ----- each entry against its power of ten -----

  lemma Entry0() ensures NearTiny(18054884314459144840, 1220, 348) { }
  lemma Entry1() ensures NearTiny(13451937075301367670, 1193, 340) { }
  lemma Entry2() ensures NearTiny(10022474136428063862, 1166, 332) { }
  lemma Entry3() ensures NearTiny(14934650266808366570, 1140, 324) { }
  lemma Entry4() ensures NearTiny(11127181549972568877, 1113, 316) { }
  lemma Entry5() ensures NearTiny(16580792590934885855, 1087, 308) { }
  lemma Entry6() ensures NearTiny(12353653155963782858, 1060, 300) { }
  lemma Entry7() ensures NearTiny(18408377700990114895, 1034, 292) { }
  lemma Entry8() ensures NearTiny(13715310171984221708, 1007, 284) { }
  lemma Entry9() ensures NearTiny(10218702384817765436, 980, 276) { }
  lemma Entry10() ensures NearTiny(15227053142812498563, 954, 268) { }
  lemma Entry11() ensures NearTiny(11345038669416679861, 927, 260) { }
  lemma Entry12() ensures NearTiny(16905424996341287883, 901, 252) { }
  lemma Entry13() ensures NearTiny(12595523146049147757, 874, 244) { }
  lemma Entry14() ensures NearTiny(9384396036005875287, 847, 236) { }
  lemma Entry15() ensures NearTiny(13983839803942852151, 821, 228) { }
  lemma Entry16() ensures NearTiny(10418772551374772303, 794, 220) { }
  lemma Entry17() ensures NearTiny(15525180923007089351, 768, 212) { }
  lemma Entry18() ensures NearTiny(11567161174868858868, 741, 204) { }
  lemma Entry19() ensures NearTiny(17236413322193710309, 715, 196) { }
  lemma Entry20() ensures NearTiny(12842128665889583758, 688, 188) { }
  lemma Entry21() ensures NearTiny(9568131466127621947, 661, 180) { }
  lemma Entry22() ensures NearTiny(14257626930069360058, 635, 172) { }
  lemma Entry23() ensures NearTiny(10622759856335341974, 608, 164) { }
  lemma Entry24() ensures NearTiny(15829145694278690180, 582, 156) { }
  lemma Entry25() ensures NearTiny(11793632577567316726, 555, 148) { }
  lemma Entry26() ensures NearTiny(17573882009934360870, 529, 140) { }
  lemma Entry27() ensures NearTiny(13093562431584567480, 502, 132) { }
  lemma Entry28() ensures NearTiny(9755464219737475723, 475, 124) { }
  lemma Entry29() ensures NearTiny(14536774485912137811, 449, 116) { }
  lemma Entry30() ensures NearTiny(10830740992659433045, 422, 108) { }
  lemma Entry31() ensures NearTiny(16139061738043178685, 396, 100) { }
  lemma Entry32() ensures NearTiny(12024538023802026127, 369, 92) { }
  lemma Entry33() ensures NearTiny(17917957937422433684, 343, 84) { }
  lemma Entry34() ensures NearTiny(13349918974505688015, 316, 76) { }
  lemma Entry35() ensures NearTiny(9946464728195732843, 289, 68) { }
  lemma Entry36() ensures NearTiny(14821387422376473014, 263, 60) { }
  lemma Entry37() ensures NearTiny(11042794154864902060, 236, 52) { }
  lemma Entry38() ensures NearTiny(16455045573212060422, 210, 44) { }
  lemma Entry39() ensures NearTiny(12259964326927110867, 183, 36) { }
  lemma Entry40() ensures NearTiny(18268770466636286478, 157, 28) { }
  lemma Entry41() ensures NearTiny(13611294676837538539, 130, 20) { }
  lemma Entry42() ensures NearTiny(10141204801825835212, 103, 12) { }
  lemma Entry43() ensures NearTiny(15111572745182864684, 77, 4) { }
  lemma Entry44() ensures 11258999068426240000 == Ten(4) * Two(50) { }
  lemma Entry45() ensures 16777216000000000000 == Ten(12) * Two(24) { }
  lemma Entry46() ensures NearHuge(12500000000000000000, 3, 20) { }
  lemma Entry47() ensures NearHuge(9313225746154785156, 30, 28) { }
  lemma Entry48() ensures NearHuge(13877787807814456755, 56, 36) { }
  lemma Entry49() ensures NearHuge(10339757656912845936, 83, 44) { }
  lemma Entry50() ensures NearHuge(15407439555097886824, 109, 52) { }
  lemma Entry51() ensures NearHuge(11479437019748901445, 136, 60) { }
  lemma Entry52() ensures NearHuge(17105694144590052135, 162, 68) { }
  lemma Entry53() ensures NearHuge(12744735289059618216, 189, 76) { }
  lemma Entry54() ensures NearHuge(9495567745759798747, 216, 84) { }
  lemma Entry55() ensures NearHuge(14149498560666738074, 242, 92) { }
  lemma Entry56() ensures NearHuge(10542197943230523224, 269, 100) { }
  lemma Entry57() ensures NearHuge(15709099088952724970, 295, 108) { }
  lemma Entry58() ensures NearHuge(11704190886730495818, 322, 116) { }
  lemma Entry59() ensures NearHuge(17440603504673385349, 348, 124) { }
  lemma Entry60() ensures NearHuge(12994262207056124023, 375, 132) { }
  lemma Entry61() ensures NearHuge(9681479787123295682, 402, 140) { }
  lemma Entry62() ensures NearHuge(14426529090290212157, 428, 148) { }
  lemma Entry63() ensures NearHuge(10748601772107342003, 455, 156) { }
  lemma Entry64() ensures NearHuge(16016664761464807395, 481, 164) { }
  lemma Entry65() ensures NearHuge(11933345169920330789, 508, 172) { }
  lemma Entry66() ensures NearHuge(17782069995880619868, 534, 180) { }
  lemma Entry67() ensures NearHuge(13248674568444952270, 561, 188) { }
  lemma Entry68() ensures NearHuge(9871031767461413346, 588, 196) { }
  lemma Entry69() ensures NearHuge(14708983551653345445, 614, 204) { }
  lemma Entry70() ensures NearHuge(10959046745042015199, 641, 212) { }
  lemma Entry71() ensures NearHuge(16330252207878254650, 667, 220) { }
  lemma Entry72() ensures NearHuge(12166986024289022870, 694, 228) { }
  lemma Entry73() ensures NearHuge(18130221999122236476, 720, 236) { }
  lemma Entry74() ensures NearHuge(13508068024458167312, 747, 244) { }
  lemma Entry75() ensures NearHuge(10064294952495520794, 774, 252) { }
  lemma Entry76() ensures NearHuge(14996968138956309548, 800, 260) { }
  lemma Entry77() ensures NearHuge(11173611982879273257, 827, 268) { }
  lemma Entry78() ensures NearHuge(16649979327439178909, 853, 276) { }
  lemma Entry79() ensures NearHuge(12405201291620119593, 880, 284) { }
  lemma Entry80() ensures NearHuge(9242595204427927429, 907, 292) { }
  lemma Entry81() ensures NearHuge(13772540099066387757, 933, 300) { }
  lemma Entry82() ensures NearHuge(10261342003245940623, 960, 308) { }
  lemma Entry83() ensures NearHuge(15290591125556738113, 986, 316) { }
  lemma Entry84() ensures NearHuge(11392378155556871081, 1013, 324) { }
  lemma Entry85() ensures NearHuge(16975966327722178521, 1039, 332) { }
  lemma Entry86() ensures NearHuge(12648080533535911531, 1066, 340) { }

  lemma Row0Accurate(idx: int)
    requires 0 <= idx < 8
    ensures Accurate(Row0(idx))
  {
    match idx
    case 0 => Entry0();
    case 1 => Entry1();
    case 2 => Entry2();
    case 3 => Entry3();
    case 4 => Entry4();
    case 5 => Entry5();
    case 6 => Entry6();
    case _ => Entry7();
  }

  lemma Row1Accurate(idx: int)
    requires 8 <= idx < 16
    ensures Accurate(Row1(idx))
  {
    match idx
    case 8 => Entry8();
    case 9 => Entry9();
    case 10 => Entry10();
    case 11 => Entry11();
    case 12 => Entry12();
    case 13 => Entry13();
    case 14 => Entry14();
    case _ => Entry15();
  }

  lemma Row2Accurate(idx: int)
    requires 16 <= idx < 24
    ensures Accurate(Row2(idx))
  {
    match idx
    case 16 => Entry16();
    case 17 => Entry17();
    case 18 => Entry18();
    case 19 => Entry19();
    case 20 => Entry20();
    case 21 => Entry21();
    case 22 => Entry22();
    case _ => Entry23();
  }

  lemma Row3Accurate(idx: int)
    requires 24 <= idx < 32
    ensures Accurate(Row3(idx))
  {
    match idx
    case 24 => Entry24();
    case 25 => Entry25();
    case 26 => Entry26();
    case 27 => Entry27();
    case 28 => Entry28();
    case 29 => Entry29();
    case 30 => Entry30();
    case _ => Entry31();
  }

  lemma Row4Accurate(idx: int)
    requires 32 <= idx < 40
    ensures Accurate(Row4(idx))
  {
    match idx
    case 32 => Entry32();
    case 33 => Entry33();
    case 34 => Entry34();
    case 35 => Entry35();
    case 36 => Entry36();
    case 37 => Entry37();
    case 38 => Entry38();
    case _ => Entry39();
  }

  lemma Row5Accurate(idx: int)
    requires 40 <= idx < 48
    ensures Accurate(Row5(idx))
  {
    match idx
    case 40 => Entry40();
    case 41 => Entry41();
    case 42 => Entry42();
    case 43 => Entry43();
    case 44 => Entry44();
    case 45 => Entry45();
    case 46 => Entry46();
    case _ => Entry47();
  }

  lemma Row6Accurate(idx: int)
    requires 48 <= idx < 56
    ensures Accurate(Row6(idx))
  {
    match idx
    case 48 => Entry48();
    case 49 => Entry49();
    case 50 => Entry50();
    case 51 => Entry51();
    case 52 => Entry52();
    case 53 => Entry53();
    case 54 => Entry54();
    case _ => Entry55();
  }

  lemma Row7Accurate(idx: int)
    requires 56 <= idx < 64
    ensures Accurate(Row7(idx))
  {
    match idx
    case 56 => Entry56();
    case 57 => Entry57();
    case 58 => Entry58();
    case 59 => Entry59();
    case 60 => Entry60();
    case 61 => Entry61();
    case 62 => Entry62();
    case _ => Entry63();
  }

  lemma Row8Accurate(idx: int)
    requires 64 <= idx < 72
    ensures Accurate(Row8(idx))
  {
    match idx
    case 64 => Entry64();
    case 65 => Entry65();
    case 66 => Entry66();
    case 67 => Entry67();
    case 68 => Entry68();
    case 69 => Entry69();
    case 70 => Entry70();
    case _ => Entry71();
  }

  lemma Row9Accurate(idx: int)
    requires 72 <= idx < 80
    ensures Accurate(Row9(idx))
  {
    match idx
    case 72 => Entry72();
    case 73 => Entry73();
    case 74 => Entry74();
    case 75 => Entry75();
    case 76 => Entry76();
    case 77 => Entry77();
    case 78 => Entry78();
    case _ => Entry79();
  }

  lemma Row10Accurate(idx: int)
    requires 80 <= idx < 87
    ensures Accurate(Row10(idx))
  {
    match idx
    case 80 => Entry80();
    case 81 => Entry81();
    case 82 => Entry82();
    case 83 => Entry83();
    case 84 => Entry84();
    case 85 => Entry85();
    case _ => Entry86();
  }

  /** Every entry is within half a unit in the last place of 10^Decade(idx). */
  lemma TableAccurate(idx: int)
    requires 0 <= idx < N_POWERS
    ensures Accurate(PowersTen(idx))
  {
    if idx < 8 {
      Row0Accurate(idx);
    } else if idx < 16 {
      Row1Accurate(idx);
    } else if idx < 24 {
      Row2Accurate(idx);
    } else if idx < 32 {
      Row3Accurate(idx);
    } else if idx < 40 {
      Row4Accurate(idx);
    } else if idx < 48 {
      Row5Accurate(idx);
    } else if idx < 56 {
      Row6Accurate(idx);
    } else if idx < 64 {
      Row7Accurate(idx);
    } else if idx < 72 {
      Row8Accurate(idx);
    } else if idx < 80 {
      Row9Accurate(idx);
    } else {
      Row10Accurate(idx);
    }
  }

  // ----- accuracy in real numbers -----

  lemma TenTo4()
    ensures Pow(10, 4) == 10000
  {
  }

  lemma TenTo8()
    ensures Pow(10, 8) == 100000000
  {
    TenTo4();
    PowAdd(10, 4, 4);
  }

  lemma TenTo16()
    ensures Pow(10, 16) == 10000000000000000
  {
    TenTo8();
    PowAdd(10, 8, 8);
  }

  lemma TenTo32()
    ensures Pow(10, 32) == 100000000000000000000000000000000
  {
    TenTo16();
    PowAdd(10, 16, 16);
  }

  lemma TenTo64()
    ensures Pow(10, 64) == 10000000000000000000000000000000000000000000000000000000000000000
  {
    TenTo32();
    PowAdd(10, 32, 32);
  }

  lemma TenTo128()
    ensures Pow(10, 128) == 100000000000000000000000000000000000000000000000000000000000000000000000000000000000000000000000000000000000000000000000000000000
  {
    TenTo64();
    PowAdd(10, 64, 64);
  }

  lemma TenTo256()
    ensures Pow(10, 256) == 10000000000000000000000000000000000000000000000000000000000000000000000000000000000000000000000000000000000000000000000000000000000000000000000000000000000000000000000000000000000000000000000000000000000000000000000000000000000000000000000000000000000000000
  {
    TenTo128();
    PowAdd(10, 128, 128);
  }

  lemma {:induction false} TenIsPowLow(n: nat)
    requires n % 4 == 0 && n < 32
    ensures Ten(n) == Pow(10, n)
  {
    if 16 <= n {
      TenTo16();
      TenIsPowLow(n - 16);
      PowAdd(10, 16, n - 16);
    } else if 8 <= n {
      TenTo8();
      TenIsPowLow(n - 8);
      PowAdd(10, 8, n - 8);
    } else if 4 <= n {
      TenTo4();
      TenIsPowLow(n - 4);
      PowAdd(10, 4, n - 4);
    }
  }

  lemma {:induction false} TenIsPowMiddle(n: nat)
    requires n % 4 == 0 && n < 128
    ensures Ten(n) == Pow(10, n)
  {
    if 64 <= n {
      TenTo64();
      TenIsPowMiddle(n - 64);
      PowAdd(10, 64, n - 64);
    } else if 32 <= n {
      TenTo32();
      TenIsPowLow(n - 32);
      PowAdd(10, 32, n - 32);
    } else {
      TenIsPowLow(n);
    }
  }

  lemma {:induction false} TenIsPow(n: nat)
    requires n % 4 == 0
    ensures Ten(n) == Pow(10, n)
  {
    if 256 <= n {
      TenTo256();
      TenIsPow(n - 256);
      PowAdd(10, 256, n - 256);
    } else if 128 <= n {
      TenTo128();
      TenIsPowMiddle(n - 128);
      PowAdd(10, 128, n - 128);
    } else {
      TenIsPowMiddle(n);
    }
  }

  lemma TwoTo1()
    ensures Pow(2, 1) == 2
  {
  }

  lemma TwoTo2()
    ensures Pow(2, 2) == 4
  {
    TwoTo1();
    PowAdd(2, 1, 1);
  }

  lemma TwoTo4()
    ensures Pow(2, 4) == 16
  {
    TwoTo2();
    PowAdd(2, 2, 2);
  }

  lemma TwoTo8()
    ensures Pow(2, 8) == 256
  {
    TwoTo4();
    PowAdd(2, 4, 4);
  }

  lemma TwoTo16()
    ensures Pow(2, 16) == 0x10000
  {
    TwoTo8();
    PowAdd(2, 8, 8);
  }

  lemma TwoTo64()
    ensures Pow(2, 64) == 0x10000000000000000
  {
    TwoTo32();
    PowAdd(2, 32, 32);
  }

  lemma TwoTo128()
    ensures Pow(2, 128) == 0x100000000000000000000000000000000
  {
    TwoTo64();
    PowAdd(2, 64, 64);
  }

  lemma TwoTo256()
    ensures Pow(2, 256) == 0x10000000000000000000000000000000000000000000000000000000000000000
  {
    TwoTo128();
    PowAdd(2, 128, 128);
  }

  lemma TwoTo512()
    ensures Pow(2, 512) == 0x100000000000000000000000000000000000000000000000000000000000000000000000000000000000000000000000000000000000000000000000000000000
  {
    TwoTo256();
    PowAdd(2, 256, 256);
  }

  lemma TwoTo1024()
    ensures Pow(2, 1024) == 0x10000000000000000000000000000000000000000000000000000000000000000000000000000000000000000000000000000000000000000000000000000000000000000000000000000000000000000000000000000000000000000000000000000000000000000000000000000000000000000000000000000000000000000
  {
    TwoTo512();
    PowAdd(2, 512, 512);
  }

  lemma {:induction false} TwoIsPowLow(n: nat)
    requires n < 8
    ensures Two(n) == Pow(2, n)
  {
    if 4 <= n {
      TwoTo4();
      TwoIsPowLow(n - 4);
      PowAdd(2, 4, n - 4);
    } else if 2 <= n {
      TwoTo2();
      TwoIsPowLow(n - 2);
      PowAdd(2, 2, n - 2);
    } else if 1 <= n {
      TwoTo1();
      TwoIsPowLow(n - 1);
      PowAdd(2, 1, n - 1);
    }
  }

  lemma {:induction false} TwoIsPowMiddle(n: nat)
    requires n < 128
    ensures Two(n) == Pow(2, n)
  {
    if 64 <= n {
      TwoTo64();
      TwoIsPowMiddle(n - 64);
      PowAdd(2, 64, n - 64);
    } else if 32 <= n {
      TwoTo32();
      TwoIsPowMiddle(n - 32);
      PowAdd(2, 32, n - 32);
    } else if 16 <= n {
      TwoTo16();
      TwoIsPowMiddle(n - 16);
      PowAdd(2, 16, n - 16);
    } else if 8 <= n {
      TwoTo8();
      TwoIsPowMiddle(n - 8);
      PowAdd(2, 8, n - 8);
    } else {
      TwoIsPowLow(n);
    }
  }

  lemma {:induction false} TwoIsPow(n: nat)
    ensures Two(n) == Pow(2, n)
  {
    if 1024 <= n {
      TwoTo1024();
      TwoIsPow(n - 1024);
      PowAdd(2, 1024, n - 1024);
    } else if 512 <= n {
      TwoTo512();
      TwoIsPow(n - 512);
      PowAdd(2, 512, n - 512);
    } else if 256 <= n {
      TwoTo256();
      TwoIsPow(n - 256);
      PowAdd(2, 256, n - 256);
    } else if 128 <= n {
      TwoTo128();
      TwoIsPow(n - 128);
      PowAdd(2, 128, n - 128);
    } else {
      TwoIsPowMiddle(n);
    }
  }
}
