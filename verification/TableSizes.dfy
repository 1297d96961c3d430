/** Which of the listed table sizes are certain to let every probe escape: the
    prime ones, and these are all but the fifth and the sixth. */
module TableSizes {
  import opened Primality
  import opened Probing

  // ---------- Certificates ----------

  // Each list of powers below is computed by squaring; the last argument of
  // `NextPower` is the quotient of the division by the size.

  lemma Prime739()
    ensures Prime(739)
  {
    assert Sieved(739, 17) && Sieved(739, 32);
    PrimeBySqrt(739, 32);
  }

  lemma Prime1913()
    ensures Prime(1913)
  {
    assert Sieved(1913, 17) && Sieved(1913, 32) && Sieved(1913, 47);
    PrimeBySqrt(1913, 47);
  }

  lemma Prime2777()
    ensures Prime(2777)
  {
    assert Sieved(2777, 17) && Sieved(2777, 32) && Sieved(2777, 47) && Sieved(2777, 62);
    PrimeBySqrt(2777, 62);
  }

  lemma Prime3041()
    ensures Prime(3041)
  {
    assert Sieved(3041, 17) && Sieved(3041, 32) && Sieved(3041, 47) && Sieved(3041, 62);
    PrimeBySqrt(3041, 62);
  }

  lemma Prime4909()
    ensures Prime(4909)
  {
    assert Sieved(4909, 17) && Sieved(4909, 32) && Sieved(4909, 47) && Sieved(4909, 62);
    assert Sieved(4909, 77);
    PrimeBySqrt(4909, 77);
  }

  lemma Prime7001()
    ensures Prime(7001)
  {
    assert Sieved(7001, 17) && Sieved(7001, 32) && Sieved(7001, 47) && Sieved(7001, 62);
    assert Sieved(7001, 77) && Sieved(7001, 92);
    PrimeBySqrt(7001, 92);
  }

  lemma Prime31039()
    ensures Prime(31039)
  {
    hide Power;
    FirstPower(50, 31039);
    NextPower(50, 2, 31039, 50, 2500, 0);
    NextPower(50, 5, 31039, 2500, 30387, 10067);
    NextPower(50, 11, 31039, 30387, 24524, 1487434);
    NextPower(50, 23, 31039, 24524, 664, 968824);
    NextPower(50, 46, 31039, 664, 6350, 14);
    NextPower(50, 92, 31039, 6350, 2839, 1299);
    NextPower(50, 184, 31039, 2839, 20820, 259);
    NextPower(50, 369, 31039, 20820, 17470, 698270);
    NextPower(50, 739, 31039, 17470, 1, 491641);
    Prime739();
    PrimeByFactor(31039, 50, 739, 12669, 20);
  }

  lemma Prime137453()
    ensures Prime(137453)
  {
    hide Power;
    FirstPower(57375, 137453);
    NextPower(57375, 2, 137453, 57375, 28728, 23949);
    NextPower(57375, 4, 137453, 28728, 30172, 6004);
    NextPower(57375, 9, 137453, 30172, 72274, 379993942);
    NextPower(57375, 19, 137453, 72274, 56044, 2180382352);
    NextPower(57375, 38, 137453, 56044, 128886, 22850);
    NextPower(57375, 76, 137453, 128886, 131040, 120852);
    NextPower(57375, 153, 137453, 131040, 76436, 7167640988);
    NextPower(57375, 306, 137453, 76436, 22331, 42505);
    NextPower(57375, 613, 137453, 22331, 89144, 208154027);
    NextPower(57375, 1227, 137453, 89144, 89083, 3317055289);
    NextPower(57375, 2454, 137453, 89083, 69387, 57734);
    NextPower(57375, 4909, 137453, 69387, 1, 2009669758);
    Prime4909();
    PrimeByFactor(137453, 57375, 4909, 92497, 38609);
  }

  lemma Prime382601()
    ensures Prime(382601)
  {
    hide Power;
    FirstPower(52395, 382601);
    NextPower(52395, 3, 382601, 52395, 126837, 375944238);
    NextPower(52395, 7, 382601, 126837, 301769, 2203107386);
    NextPower(52395, 14, 382601, 301769, 134947, 238014);
    NextPower(52395, 29, 382601, 134947, 307220, 2493849335);
    NextPower(52395, 59, 382601, 307220, 86050, 12925361950);
    NextPower(52395, 119, 382601, 86050, 209900, 1014017600);
    NextPower(52395, 239, 382601, 209900, 201670, 6033490330);
    NextPower(52395, 478, 382601, 201670, 302600, 106300);
    NextPower(52395, 956, 382601, 302600, 10473, 239327);
    NextPower(52395, 1913, 382601, 10473, 1, 15020554);
    Prime1913();
    PrimeByFactor(382601, 52395, 1913, 225943, 30941);
  }

  lemma Prime1374533()
    ensures Prime(1374533)
  {
    hide Power;
    FirstPower(188548, 1374533);
    NextPower(188548, 2, 1374533, 188548, 801325, 25863);
    NextPower(188548, 5, 1374533, 801325, 446618, 88081386754);
    NextPower(188548, 11, 1374533, 446618, 744484, 27361455996);
    NextPower(188548, 23, 1374533, 744484, 30968, 76028688040);
    NextPower(188548, 47, 1374533, 30968, 630443, 131550673);
    NextPower(188548, 95, 1374533, 630443, 426492, 54520322120);
    NextPower(188548, 190, 1374533, 426492, 725108, 132332);
    NextPower(188548, 380, 1374533, 725108, 746636, 382516);
    NextPower(188548, 760, 1374533, 746636, 91285, 405567);
    NextPower(188548, 1520, 1374533, 91285, 532179, 6062);
    NextPower(188548, 3041, 1374533, 532179, 1, 38849212999);
    Prime3041();
    PrimeByFactor(1374533, 188548, 3041, 1123140, 154063);
  }

  lemma Prime4123591()
    ensures Prime(4123591)
  {
    hide Power;
    FirstPower(667559, 4123591);
    NextPower(667559, 2, 4123591, 667559, 2662702, 108069);
    NextPower(667559, 4, 4123591, 2662702, 3283134, 1719370);
    NextPower(667559, 8, 4123591, 3283134, 954140, 2613976);
    NextPower(667559, 16, 4123591, 954140, 1460166, 220774);
    NextPower(667559, 33, 4123591, 1460166, 2237134, 345158470370);
    NextPower(667559, 67, 4123591, 2237134, 2014419, 810210876335);
    NextPower(667559, 134, 4123591, 2014419, 2330146, 984065);
    NextPower(667559, 268, 4123591, 2330146, 2752115, 1316711);
    NextPower(667559, 536, 4123591, 2752115, 3372654, 1836781);
    NextPower(667559, 1073, 4123591, 3372654, 3064065, 1841440331469);
    NextPower(667559, 2147, 4123591, 3064065, 2448457, 1519882520498);
    NextPower(667559, 4295, 4123591, 2448457, 867257, 970507810674);
    NextPower(667559, 8590, 4123591, 867257, 4076422, 182397);
    NextPower(667559, 17181, 4123591, 4076422, 3929737, 2690124289909);
    NextPower(667559, 34363, 4123591, 3929737, 794927, 2500005960984);
    NextPower(667559, 68726, 4123591, 794927, 1603307, 153242);
    NextPower(667559, 137453, 4123591, 1603307, 1, 416147653090);
    Prime137453();
    PrimeByFactor(4123591, 667559, 137453, 158153, 25603);
  }

  lemma Prime305471()
    ensures Prime(305471)
  {
    hide Power;
    FirstPower(302815, 305471);
    NextPower(302815, 2, 305471, 302815, 28503, 300182);
    NextPower(302815, 5, 305471, 28503, 126490, 805357195);
    NextPower(302815, 10, 305471, 126490, 65533, 52377);
    NextPower(302815, 21, 305471, 65533, 81459, 4257233756);
    NextPower(302815, 43, 305471, 81459, 116746, 6577873939);
    NextPower(302815, 86, 305471, 116746, 123438, 44618);
    NextPower(302815, 173, 305471, 123438, 267500, 15104458160);
    NextPower(302815, 347, 305471, 267500, 149636, 70934084884);
    NextPower(302815, 694, 305471, 149636, 213667, 73299);
    NextPower(302815, 1388, 305471, 213667, 29526, 149453);
    NextPower(302815, 2777, 305471, 29526, 1, 864204709);
    Prime2777();
    PrimeByFactor(305471, 302815, 2777, 236375, 234319);
  }

  lemma Prime916361()
    ensures Prime(916361)
  {
    hide Power;
    FirstPower(562749, 916361);
    NextPower(562749, 2, 916361, 562749, 322650, 345591);
    NextPower(562749, 5, 916361, 322650, 257602, 63930996418);
    NextPower(562749, 11, 916361, 257602, 3670, 40751781166);
    NextPower(562749, 23, 916361, 3670, 554397, 8271423);
    NextPower(562749, 46, 916361, 554397, 306960, 335409);
    NextPower(562749, 92, 916361, 306960, 538136, 102824);
    NextPower(562749, 184, 916361, 538136, 118554, 316022);
    NextPower(562749, 369, 916361, 118554, 695792, 8631386372);
    NextPower(562749, 739, 916361, 695792, 916360, 297308274616);
    Prime739();
    PrimeByTwice(916361, 562749, 739, 322650, 553110, 194749);
  }

  lemma Prime2749067()
    ensures Prime(2749067)
  {
    hide Power;
    FirstPower(4, 2749067);
    NextPower(4, 2, 2749067, 4, 16, 0);
    NextPower(4, 5, 2749067, 16, 1024, 0);
    NextPower(4, 10, 2749067, 1024, 1048576, 0);
    NextPower(4, 20, 2749067, 1048576, 288590, 399958);
    NextPower(4, 41, 2749067, 288590, 2064273, 121181);
    NextPower(4, 83, 2749067, 2064273, 403634, 6200246);
    NextPower(4, 167, 2749067, 403634, 1546139, 237055);
    NextPower(4, 335, 2749067, 1546139, 1767705, 3478337);
    NextPower(4, 671, 2749067, 1767705, 1418674, 4546678);
    NextPower(4, 1342, 2749067, 1418674, 2731571, 732115);
    NextPower(4, 2684, 2749067, 2731571, 963579, 2714186);
    NextPower(4, 5369, 2749067, 963579, 672237, 1350981);
    NextPower(4, 10738, 2749067, 672237, 2703508, 164383);
    NextPower(4, 21477, 2749067, 2703508, 307584, 10634816);
    NextPower(4, 42954, 2749067, 307584, 1525318, 34414);
    NextPower(4, 85908, 2749067, 1525318, 1868617, 846321);
    NextPower(4, 171816, 2749067, 1868617, 2042639, 1270150);
    NextPower(4, 343633, 2749067, 2042639, 1299495, 6070967);
    NextPower(4, 687266, 2749067, 1299495, 1374533, 614276);
    NextPower(4, 1374533, 2749067, 1374533, 1, 2749065);
    Prime1374533();
    PrimeByFactor(2749067, 4, 1374533, 916356, 1);
  }

  lemma Prime8247199()
    ensures Prime(8247199)
  {
    hide Power;
    FirstPower(729, 8247199);
    NextPower(729, 2, 8247199, 729, 531441, 0);
    NextPower(729, 5, 8247199, 531441, 6992425, 24964976);
    NextPower(729, 10, 8247199, 6992425, 1524384, 5928559);
    NextPower(729, 20, 8247199, 1524384, 7542017, 281761);
    NextPower(729, 41, 8247199, 7542017, 643135, 5028009254);
    NextPower(729, 83, 8247199, 643135, 6051237, 36561612);
    NextPower(729, 167, 8247199, 6051237, 6945662, 3236751661);
    NextPower(729, 335, 8247199, 6945662, 4346512, 4264305836);
    NextPower(729, 671, 8247199, 4346512, 441685, 1669947509);
    NextPower(729, 1342, 8247199, 441685, 6394079, 23654);
    NextPower(729, 2684, 8247199, 6394079, 2542790, 4957349);
    NextPower(729, 5369, 8247199, 2542790, 1042064, 571533964);
    NextPower(729, 10738, 8247199, 1042064, 5182164, 131668);
    NextPower(729, 21477, 8247199, 5182164, 5824601, 2373795817);
    NextPower(729, 42954, 8247199, 5824601, 2103637, 4113636);
    NextPower(729, 85908, 8247199, 2103637, 6588349, 536580);
    NextPower(729, 171816, 8247199, 6588349, 6409762, 5263161);
    NextPower(729, 343633, 8247199, 6409762, 3065199, 3631657323);
    NextPower(729, 687266, 8247199, 3065199, 4887229, 1139228);
    NextPower(729, 1374533, 8247199, 4887229, 1, 2111282912);
    Prime1374533();
    PrimeByFactor(8247199, 729, 1374533, 5902185, 521);
  }

  lemma Prime24741547()
    ensures Prime(24741547)
  {
    hide Power;
    FirstPower(729, 24741547);
    NextPower(729, 3, 24741547, 729, 16297284, 15);
    NextPower(729, 7, 24741547, 16297284, 16157568, 7825843248);
    NextPower(729, 15, 24741547, 16157568, 8231837, 7692237097);
    NextPower(729, 31, 24741547, 8231837, 7523890, 1996614413);
    NextPower(729, 62, 24741547, 7523890, 13780630, 2288010);
    NextPower(729, 125, 24741547, 13780630, 22036382, 5595498994);
    NextPower(729, 251, 24741547, 22036382, 14006765, 14308076773);
    NextPower(729, 503, 24741547, 14006765, 66921, 5780645832);
    NextPower(729, 1006, 24741547, 66921, 200234, 181);
    NextPower(729, 2013, 24741547, 200234, 20959503, 1181343);
    NextPower(729, 4026, 24741547, 20959503, 1509279, 17755590);
    NextPower(729, 8053, 24741547, 1509279, 17184825, 67118112);
    NextPower(729, 16107, 24741547, 17184825, 2823313, 8701435496);
    NextPower(729, 32215, 24741547, 2823313, 23567497, 234865232);
    NextPower(729, 64431, 24741547, 23567497, 4559866, 16365436685);
    NextPower(729, 128862, 24741547, 4559866, 2445455, 840383);
    NextPower(729, 257724, 24741547, 2445455, 20314749, 241708);
    NextPower(729, 515448, 24741547, 20314749, 22973001, 16680000);
    NextPower(729, 1030897, 24741547, 22973001, 17508539, 15550205770);
    NextPower(729, 2061795, 24741547, 17508539, 20159779, 9032344490);
    NextPower(729, 4123591, 24741547, 20159779, 1, 11974908704);
    Prime4123591();
    PrimeByFactor(24741547, 729, 4123591, 1801239, 53);
  }

  lemma Prime74224603()
    ensures Prime(74224603)
  {
    hide Power;
    FirstPower(57648630, 74224603);
    NextPower(57648630, 3, 74224603, 57648630, 73891907, 2581184742370831);
    NextPower(57648630, 6, 74224603, 73891907, 17745343, 73560702);
    NextPower(57648630, 13, 74224603, 17745343, 18665024, 244573784602882);
    NextPower(57648630, 27, 74224603, 18665024, 65562172, 270581570321036);
    NextPower(57648630, 54, 74224603, 65562172, 51528499, 57910695);
    NextPower(57648630, 109, 74224603, 51528499, 22375639, 2062225207925597);
    NextPower(57648630, 218, 74224603, 22375639, 1978140, 6745327);
    NextPower(57648630, 437, 74224603, 1978140, 16294881, 3039171145773);
    NextPower(57648630, 875, 74224603, 16294881, 48094424, 206226035948602);
    NextPower(57648630, 1750, 74224603, 48094424, 69543281, 31163165);
    NextPower(57648630, 3500, 74224603, 69543281, 35856537, 65157208);
    NextPower(57648630, 7001, 74224603, 35856537, 74224602, 998568344160756);
    NextPower(57648630, 2, 74224603, 57648630, 26901801, 44774433);
    Prime7001();
    PrimeByTwice(74224603, 57648630, 7001, 26901801, 57829328, 20959533);
  }

  lemma Prime222673783()
    ensures Prime(222673783)
  {
    hide Power;
    FirstPower(49204763, 222673783);
    NextPower(49204763, 2, 222673783, 49204763, 40074384, 10872895);
    NextPower(49204763, 5, 222673783, 40074384, 93339539, 354872027373883);
    NextPower(49204763, 11, 222673783, 93339539, 104384810, 1925171217591711);
    NextPower(49204763, 23, 222673783, 104384810, 90242333, 2407757071410249);
    NextPower(49204763, 46, 222673783, 90242333, 77046535, 36572238);
    NextPower(49204763, 93, 222673783, 77046535, 184328237, 1311729485916786);
    NextPower(49204763, 186, 222673783, 184328237, 220123131, 152585986);
    NextPower(49204763, 373, 222673783, 220123131, 158195254, 10707039872500283);
    NextPower(49204763, 747, 222673783, 158195254, 30241865, 5529997782844821);
    NextPower(49204763, 1494, 222673783, 30241865, 183664965, 4107220);
    NextPower(49204763, 2989, 222673783, 183664965, 144916344, 7454022471726957);
    NextPower(49204763, 5978, 222673783, 144916344, 175384708, 94311716);
    NextPower(49204763, 11956, 222673783, 175384708, 148153724, 138138380);
    NextPower(49204763, 23912, 222673783, 148153724, 209178564, 98572564);
    NextPower(49204763, 47825, 222673783, 209178564, 119445908, 9668796316310980);
    NextPower(49204763, 95650, 222673783, 119445908, 190798252, 64072764);
    NextPower(49204763, 191300, 222673783, 190798252, 138392111, 163485671);
    NextPower(49204763, 382601, 222673783, 138392111, 1, 4232146812770134);
    Prime382601();
    PrimeByFactor(222673783, 49204763, 382601, 50844796, 11235297);
  }

  lemma Prime668021359()
    ensures Prime(668021359)
  {
    hide Power;
    FirstPower(24904706, 668021359);
    NextPower(24904706, 3, 668021359, 24904706, 208433188, 23123518054492);
    NextPower(24904706, 7, 668021359, 208433188, 21014956, 1619663565918412);
    NextPower(24904706, 15, 668021359, 21014956, 171018316, 16464480827500);
    NextPower(24904706, 30, 668021359, 171018316, 29232986, 43781930);
    NextPower(24904706, 60, 668021359, 29232986, 478954087, 1279251);
    NextPower(24904706, 121, 668021359, 478954087, 63472352, 8552219476217118);
    NextPower(24904706, 242, 668021359, 63472352, 183401318, 6030854);
    NextPower(24904706, 484, 668021359, 183401318, 317151592, 50351748);
    NextPower(24904706, 969, 668021359, 317151592, 157669264, 3749944690174480);
    NextPower(24904706, 1939, 668021359, 157669264, 278341759, 926798135266063);
    NextPower(24904706, 3879, 668021359, 278341759, 559988576, 2888336613617790);
    NextPower(24904706, 7759, 668021359, 559988576, 460063497, 11690939289451001);
    NextPower(24904706, 15519, 668021359, 460063497, 110919210, 7890901515620616);
    NextPower(24904706, 31039, 668021359, 110919210, 1, 458674510456361);
    Prime31039();
    PrimeByFactor(668021359, 24904706, 31039, 372956035, 13904286);
  }

  lemma Prime2004064039()
    ensures Prime(2004064039)
  {
    hide Power;
    FirstPower(1481403517, 2004064039);
    NextPower(1481403517, 2, 2004064039, 1481403517, 1999621509, 1095053020);
    NextPower(1481403517, 5, 2004064039, 1999621509, 658321477, 2955679745433971600);
    NextPower(1481403517, 11, 2004064039, 658321477, 987765254, 320359659691583801);
    NextPower(1481403517, 23, 2004064039, 987765254, 477507073, 721222499475925941);
    NextPower(1481403517, 46, 2004064039, 477507073, 1476078317, 113775308);
    NextPower(1481403517, 93, 2004064039, 1476078317, 1981725875, 1610573605956499742);
    NextPower(1481403517, 186, 2004064039, 1981725875, 1665820286, 1959636701);
    NextPower(1481403517, 373, 2004064039, 1665820286, 1571126764, 2051247521541206712);
    NextPower(1481403517, 747, 2004064039, 1571126764, 793625114, 1824669572446508762);
    NextPower(1481403517, 1494, 2004064039, 793625114, 144347420, 314281784);
    NextPower(1481403517, 2989, 2004064039, 144347420, 1356295560, 15402096074103160);
    NextPower(1481403517, 5978, 2004064039, 1356295560, 1949536264, 917903624);
    NextPower(1481403517, 11956, 2004064039, 1949536264, 740653289, 1896492113);
    NextPower(1481403517, 23912, 2004064039, 740653289, 1567819868, 273727427);
    NextPower(1481403517, 47825, 2004064039, 1567819868, 837961135, 1816996553951577207);
    NextPower(1481403517, 95650, 2004064039, 837961135, 116455363, 350377458);
    NextPower(1481403517, 191300, 2004064039, 116455363, 1512405983, 6767174);
    NextPower(1481403517, 382601, 2004064039, 1512405983, 1, 1690824568635559908);
    Prime382601();
    PrimeByFactor(2004064039, 1481403517, 382601, 1982249897, 1465278509);
  }

  // ---------- All sizes ----------

  lemma LargePrimes(k: nat)
    requires 6 <= k < |S_PRIME|
    ensures Prime(S_PRIME[k])
  {
    Prime305471();
    Prime916361();
    Prime2749067();
    Prime8247199();
    Prime24741547();
    Prime74224603();
    Prime222673783();
    Prime668021359();
    Prime2004064039();
  }

  /** The list is one of primes by name; two of its sizes are not prime, and a
      probe sequence need not escape at these. */
  lemma SizesDecided(k: nat)
    requires k < |S_PRIME|
    ensures Prime(S_PRIME[k]) <==> k != 4 && k != 5
    ensures Escapes(S_PRIME[k]) <==> k != 4 && k != 5
  {
    if k < 4 {
      FirstSizesPrime(k);
    } else if k < 6 {
      CompositeSizesTrap();
    } else {
      LargePrimes(k);
      PrimeEscapes(S_PRIME[k]);
    }
  }
}
