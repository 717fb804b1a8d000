/**
 * The tower of primes under 2^255 - 19. Each power of 2 is reached in steps of
 * three bits; each prime is shown from one or two prime factors of the number
 * below it.
 */
module PrimeTower {
  import opened Modular
  import opened Primality

  const M: int := 8_574_133
  const L: int := 1_919_519_569_386_763
  const R: int := 75_445_702_479_781_427_272_750_846_543_864_801
  const Q: int := 74_058_212_732_561_358_302_231_226_437_062_788_676_166_966_415_465_897_661_863_160_754_340_907
  const P: int := 57_896_044_618_658_097_711_785_492_504_343_953_926_634_992_332_820_282_019_728_792_003_956_564_819_949

  ghost predicate Reach(a: int, e: nat, x: int, n: int) {
    Congruent(Pow(a, e), x, n)
  }

  lemma NoPower(a: int, n: int)
    ensures Reach(a, 0, 1, n)
  {
    CongruentIf(1, 1, n, 0);
  }

  lemma SumPower(a: int, e: nat, x: int, f: nat, y: int, n: int)
    requires Reach(a, e, x, n) && Reach(a, f, y, n)
    ensures Reach(a, e + f, x * y, n)
  {
    hide Congruent;
    PowSum(a, e, f);
    CongruentProduct(Pow(a, e), x, Pow(a, f), y, n);
  }

  lemma Reduce(a: int, e: nat, x: int, y: int, n: int)
    requires n > 0 && Reach(a, e, x, n) && x % n == y
    ensures Reach(a, e, y, n)
  {
    hide Congruent;
    ModCongruent(x, n);
    CongruentTrans(Pow(a, e), x, y, n);
  }

  // The next bit of an exponent.
  lemma EvenUp(n: int, a: int, e: nat, x: int, y: int) returns (more: nat)
    requires n > 0 && Reach(a, e, x, n) && (x * x) % n == y
    ensures more == 2 * e && Reach(a, more, y, n)
  {
    hide Reach;
    SumPower(a, e, x, e, x, n);
    Reduce(a, e + e, x * x, y, n);
    more := e + e;
  }

  lemma OddUp(n: int, a: int, e: nat, x: int, y: int) returns (more: nat)
    requires n > 0 && Reach(a, e, x, n) && (x * x * a) % n == y
    ensures more == 2 * e + 1 && Reach(a, more, y, n)
  {
    OnePower(a, n);
    hide Reach;
    SumPower(a, e, x, e, x, n);
    SumPower(a, e + e, x * x, 1, a, n);
    Reduce(a, e + e + 1, x * x * a, y, n);
    more := e + e + 1;
  }

  lemma OnePower(a: int, n: int)
    ensures Reach(a, 1, a, n)
  {
    CongruentIf(a, a, n, 0);
  }

  // The next three bits of an exponent of 2: d, with c the power for them.
  lemma Up(n: int, e: nat, x: int, d: nat, c: int, y: int) returns (more: nat)
    requires n > 0 && Reach(2, e, x, n) && c == Pow(2, d) && (x * x * x * x * x * x * x * x * c) % n == y
    ensures more == 8 * e + d && Reach(2, more, y, n)
  {
    DigitPower(d, c, n);
    hide Reach;
    SumPower(2, e, x, e, x, n);
    SumPower(2, 2 * e, x * x, 2 * e, x * x, n);
    SumPower(2, 4 * e, (x * x) * (x * x), 4 * e, (x * x) * (x * x), n);
    EighthPower(x);
    SumPower(2, 8 * e, x * x * x * x * x * x * x * x, d, c, n);
    Reduce(2, 8 * e + d, x * x * x * x * x * x * x * x * c, y, n);
    more := 8 * e + d;
  }

  lemma DigitPower(d: nat, c: int, n: int)
    requires c == Pow(2, d)
    ensures Reach(2, d, c, n)
  {
    CongruentIf(c, c, n, 0);
  }

  lemma EighthPower(x: int)
    ensures ((x * x) * (x * x)) * ((x * x) * (x * x)) == x * x * x * x * x * x * x * x
  {
    var y := x * x;
    Associates(y, x, x);
    var z := y * y;
    Associates(z, x, x);
    Associates(z * x * x, x, x);
    Associates(z, y, y);
  }

  // Five times three bits.
  lemma Climb(n: int, e: nat, x: int, d1: nat, c1: int, y1: int, d2: nat, c2: int, y2: int,
              d3: nat, c3: int, y3: int, d4: nat, c4: int, y4: int, d5: nat, c5: int, y5: int)
    returns (more: nat)
    requires n > 0 && Reach(2, e, x, n)
    requires c1 == Pow(2, d1) && (x * x * x * x * x * x * x * x * c1) % n == y1
    requires c2 == Pow(2, d2) && (y1 * y1 * y1 * y1 * y1 * y1 * y1 * y1 * c2) % n == y2
    requires c3 == Pow(2, d3) && (y2 * y2 * y2 * y2 * y2 * y2 * y2 * y2 * c3) % n == y3
    requires c4 == Pow(2, d4) && (y3 * y3 * y3 * y3 * y3 * y3 * y3 * y3 * c4) % n == y4
    requires c5 == Pow(2, d5) && (y4 * y4 * y4 * y4 * y4 * y4 * y4 * y4 * c5) % n == y5
    ensures more == 8 * (8 * (8 * (8 * (8 * e + d1) + d2) + d3) + d4) + d5 && Reach(2, more, y5, n)
  {
    hide Reach, Pow;
    more := Up(n, e, x, d1, c1, y1);
    more := Up(n, more, y1, d2, c2, y2);
    more := Up(n, more, y2, d3, c3, y3);
    more := Up(n, more, y3, d4, c4, y4);
    more := Up(n, more, y4, d5, c5, y5);
  }

  lemma InverseOf(a: int, e: nat, x: int, u: int, n: int)
    requires n > 0 && Reach(a, e, x, n) && ((x - 1) * u) % n == 1
    ensures Invertible(Pow(a, e) - 1, n)
  {
    hide Congruent;
    var z := Pow(a, e) - 1;
    SameDifference(Pow(a, e), x, z, x - 1, n);
    CongruentTimes(z, x - 1, u, n);
    ModCongruent((x - 1) * u, n);
    CongruentTrans(z * u, (x - 1) * u, 1, n);
  }

  lemma ByOnePrime(n: int, c: nat, l: nat, x: int, u: int)
    requires n > 1 && Prime(l) && l * l > n && n - 1 == c * l
    requires Reach(2, c, x, n) && Reach(2, n - 1, 1, n) && ((x - 1) * u) % n == 1
    ensures Prime(n)
  {
    var b := Pow(2, c);
    InverseOf(2, c, x, u, n);
    CoveredByPrime(l);
    PowTimes(2, c, l);
    assert Pow(b, 1) == b * Pow(b, 0);
    hide Reach, Covered, Invertible, Prime, Pow;
    PrimeIf(n, b, l, l, l, 1, 1);
  }

  lemma ByTwoPrimes(n: int, c: nat, l1: nat, l2: nat, x1: int, u1: int, x2: int, u2: int)
    requires n > 1 && Prime(l1) && Prime(l2) && (l1 * l2) * (l1 * l2) > n
    requires Reach(2, c * l2, x1, n) && Reach(x1, l1, 1, n) && Reach(2, c * l1, x2, n)
    requires ((x1 - 1) * u1) % n == 1 && ((x2 - 1) * u2) % n == 1
    ensures Prime(n)
  {
    var b := Pow(2, c);
    InverseOf(2, c * l2, x1, u1, n);
    InverseOf(2, c * l1, x2, u2, n);
    CoveredByTwo(l1, l2);
    PowTimes(2, c, l1);
    PowTimes(2, c, l2);
    PowerOfReached(2, c * l2, x1, l1, n);
    PowTimes(b, l2, l1);
    Associates(l1, l2, 1);
    hide Reach, Covered, Invertible, Prime, Pow;
    PrimeIf(n, b, l1 * l2, l1, l2, l2, l1);
  }

  lemma {:induction false} CongruentPower(x: int, y: int, e: nat, n: int)
    requires Congruent(x, y, n)
    ensures Congruent(Pow(x, e), Pow(y, e), n)
  {
    if e == 0 {
      CongruentIf(1, 1, n, 0);
    } else {
      CongruentPower(x, y, e - 1, n);
      CongruentProduct(x, y, Pow(x, e - 1), Pow(y, e - 1), n);
    }
  }

  lemma PowerOfReached(a: int, e: nat, x: int, l: nat, n: int)
    requires Reach(a, e, x, n) && Reach(x, l, 1, n)
    ensures Unit(Pow(a, e), l, n)
  {
    CongruentPower(Pow(a, e), x, l, n);
    CongruentTrans(Pow(Pow(a, e), l), Pow(x, l), 1, n);
  }

  lemma Prime3()
    ensures Prime(3)
  {
  }

  lemma Prime991()
    ensures Prime(991)
  {
  }

  lemma Prime7()
    ensures Prime(7)
  {
  }

  lemma Prime353()
    ensures Prime(353)
  {
  }

  lemma Prime9463()
    ensures Prime(9463)
  {
  }

  lemma PrimeMLarge()
    ensures Reach(2, 2858044, 7079057, M)
  {
    hide Reach;
    var e: nat := 0;
    NoPower(2, M);
    e := Climb(M, e, 1,
      1, 2, 2,
      2, 4, 1024,
      7, 128, 6407444,
      1, 2, 7504447,
      6, 64, 3933516);
    e := Up(M, e, 3933516,
      0, 1, 6378255);
    e := Up(M, e, 6378255,
      7, 128, 6899087);
    e := Up(M, e, 6899087,
      4, 16, 7079057);
  }

  lemma PrimeMOrder()
    ensures Reach(7079057, 3, 1, M)
  {
    hide Reach;
    var e: nat := 0;
    NoPower(7079057, M);
    e := OddUp(M, 7079057, e, 1, 7079057);
    e := OddUp(M, 7079057, e, 7079057, 1);
  }

  lemma PrimeMSmall()
    ensures Reach(2, 8652, 3435729, M)
  {
    hide Reach;
    var e: nat := 0;
    NoPower(2, M);
    e := Climb(M, e, 1,
      2, 4, 4,
      0, 1, 65536,
      7, 128, 430341,
      1, 2, 2003323,
      4, 16, 3435729);
  }

  lemma PrimeM()
    ensures Prime(M)
  {
    hide Prime, Reach, Pow;
    Prime3();
    Prime991();
    PrimeMLarge();
    PrimeMOrder();
    PrimeMSmall();
    ByTwoPrimes(M, 2884, 3, 991,
      7079057, 498358,
      3435729, 1014251);
  }

  lemma PrimeLLarge()
    ensures Reach(2, 274217081340966, 1124719358789780, L)
  {
    hide Reach;
    var e: nat := 0;
    NoPower(2, L);
    e := Climb(L, e, 1,
      7, 128, 128,
      6, 64, 1000012760383178,
      2, 4, 889486669516902,
      6, 64, 624107695850601,
      3, 8, 529370380405828);
    e := Climb(L, e, 529370380405828,
      0, 1, 1786561390612661,
      4, 16, 1867063644693996,
      3, 8, 371485546796726,
      5, 32, 366161948869237,
      6, 64, 1447641919956720);
    e := Climb(L, e, 1447641919956720,
      3, 8, 1530897228167631,
      0, 1, 1717765387632163,
      2, 4, 1693948335298147,
      0, 1, 861161640083124,
      4, 16, 1871986395834522);
    e := Up(L, e, 1871986395834522,
      6, 64, 1124719358789780);
  }

  lemma PrimeLOrder()
    ensures Reach(1124719358789780, 7, 1, L)
  {
    hide Reach;
    var e: nat := 0;
    NoPower(1124719358789780, L);
    e := OddUp(L, 1124719358789780, e, 1, 1124719358789780);
    e := OddUp(L, 1124719358789780, e, 1124719358789780, 1687169138360587);
    e := OddUp(L, 1124719358789780, e, 1687169138360587, 1);
  }

  lemma PrimeLSmall()
    ensures Reach(2, 223873314, 1059928654987441, L)
  {
    hide Reach;
    var e: nat := 0;
    NoPower(2, L);
    e := Climb(L, e, 1,
      1, 2, 2,
      5, 32, 8192,
      2, 4, 1050703024027364,
      6, 64, 1131232746713132,
      0, 1, 1175992818124362);
    e := Climb(L, e, 1175992818124362,
      0, 1, 1384618485920380,
      4, 16, 1538409348524363,
      4, 16, 280066608751023,
      4, 16, 1001669444392439,
      2, 4, 1059928654987441);
  }

  lemma PrimeL()
    ensures Prime(L)
  {
    hide Prime, Reach, Pow;
    Prime7();
    PrimeM();
    PrimeLLarge();
    PrimeLOrder();
    PrimeLSmall();
    ByTwoPrimes(L, 31981902, 7, M,
      1124719358789780, 681516913897206,
      1059928654987441, 1290547218147893);
  }

  lemma Prime37853Cofactor()
    ensures Reach(2, 4, 16, 37853)
  {
    hide Reach;
    var e: nat := 0;
    NoPower(2, 37853);
    e := Up(37853, e, 1,
      4, 16, 16);
  }

  lemma Prime37853Order()
    ensures Reach(2, 37852, 1, 37853)
  {
    hide Reach;
    var e: nat := 0;
    NoPower(2, 37853);
    e := Climb(37853, e, 1,
      1, 2, 2,
      1, 2, 512,
      1, 2, 19756,
      7, 128, 29212,
      3, 8, 8396);
    e := Up(37853, e, 8396,
      4, 16, 1);
  }

  lemma Prime37853()
    ensures Prime(37853)
  {
    hide Prime, Reach, Pow;
    Prime9463();
    Prime37853Cofactor();
    Prime37853Order();
    ByOnePrime(37853, 4, 9463, 16,
      32806);
  }

  lemma Prime75707Cofactor()
    ensures Reach(2, 2, 4, 75707)
  {
    hide Reach;
    var e: nat := 0;
    NoPower(2, 75707);
    e := Up(75707, e, 1,
      2, 4, 4);
  }

  lemma Prime75707Order()
    ensures Reach(2, 75706, 1, 75707)
  {
    hide Reach;
    var e: nat := 0;
    NoPower(2, 75707);
    e := Climb(75707, e, 1,
      2, 4, 4,
      2, 4, 35023,
      3, 8, 65384,
      6, 64, 2897,
      7, 128, 67440);
    e := Up(75707, e, 67440,
      2, 4, 1);
  }

  lemma Prime75707()
    ensures Prime(75707)
  {
    hide Prime, Reach, Pow;
    Prime37853();
    Prime75707Cofactor();
    Prime75707Order();
    ByOnePrime(75707, 2, 37853, 4,
      25236);
  }

  lemma PrimeRLargePart1()
    ensures Reach(2, 7424865428786604227095, 3869545526819738024999201475857420, R)
  {
    hide Reach;
    var e: nat := 0;
    NoPower(2, R);
    e := Climb(R, e, 1,
      1, 2, 2,
      4, 16, 4096,
      4, 16, 1267650600228229401496703205376,
      5, 32, 525363819010122823253469691904,
      0, 1, 46469137633079275752444980012390434);
    e := Climb(R, e, 46469137633079275752444980012390434,
      0, 1, 40229968882241094293474412253592870,
      2, 4, 23229343619428092347787326881251943,
      6, 64, 45073371629930336582682358468168861,
      4, 16, 48722524022719171530304120725524154,
      7, 128, 43182654324332621718837631774779721);
    e := Climb(R, e, 43182654324332621718837631774779721,
      6, 64, 23595845868659150720624967079326067,
      1, 2, 22419998889373521538783833000880123,
      5, 32, 41672254019365585796099223168330291,
      5, 32, 69301567322411981641162605964298606,
      6, 64, 28265797496513903534567906995706481);
    e := Climb(R, e, 28265797496513903534567906995706481,
      7, 128, 18898575225627432890697522413496292,
      7, 128, 56416211138244615478970957223928934,
      7, 128, 18835109685187376995509574567725114,
      4, 16, 16662989012179295954836684311399347,
      2, 4, 58621416916463026388768312822378008);
    e := Climb(R, e, 58621416916463026388768312822378008,
      3, 8, 65703077708265174835656217197796365,
      5, 32, 40981923851260910790607849355824245,
      0, 1, 48484292070966935031564891730128375,
      2, 4, 44682465458225267026310350734752815,
      7, 128, 3869545526819738024999201475857420);
  }

  lemma PrimeRLarge()
    ensures Reach(2, 996548568557483816196003626400, 58781699294900834553279248901967638, R)
  {
    hide Reach;
    PrimeRLargePart1();
    var e: nat := 7424865428786604227095;
    e := Climb(R, e, 3869545526819738024999201475857420,
      6, 64, 49289954941203021712510947086021808,
      7, 128, 973410096174288688281784627172915,
      5, 32, 16322684511537938205665612333171268,
      0, 1, 15224751006321649690840473011807713,
      7, 128, 56057939102309228668685882701405968);
    e := Up(R, e, 56057939102309228668685882701405968,
      6, 64, 71927292451670417597059894816457583);
    e := Up(R, e, 71927292451670417597059894816457583,
      6, 64, 24000136134063440218256366738828295);
    e := Up(R, e, 24000136134063440218256366738828295,
      4, 16, 14281652194242824389558143059825003);
    e := Up(R, e, 14281652194242824389558143059825003,
      0, 1, 58781699294900834553279248901967638);
  }

  lemma PrimeROrder()
    ensures Reach(58781699294900834553279248901967638, 75707, 1, R)
  {
    hide Reach;
    var e: nat := 0;
    NoPower(58781699294900834553279248901967638, R);
    e := OddUp(R, 58781699294900834553279248901967638, e, 1, 58781699294900834553279248901967638);
    e := EvenUp(R, 58781699294900834553279248901967638, e, 58781699294900834553279248901967638, 19272071963980053171874812410858062);
    e := EvenUp(R, 58781699294900834553279248901967638, e, 19272071963980053171874812410858062, 10857113732875552884559949348183714);
    e := OddUp(R, 58781699294900834553279248901967638, e, 10857113732875552884559949348183714, 37861386965902158392126361241741285);
    e := EvenUp(R, 58781699294900834553279248901967638, e, 37861386965902158392126361241741285, 67447059549274550976172462060274558);
    e := EvenUp(R, 58781699294900834553279248901967638, e, 67447059549274550976172462060274558, 22845150612647514685709838606502843);
    e := OddUp(R, 58781699294900834553279248901967638, e, 22845150612647514685709838606502843, 13032174792409769475902886973017269);
    e := OddUp(R, 58781699294900834553279248901967638, e, 13032174792409769475902886973017269, 56396309446115810308722588662736980);
    e := OddUp(R, 58781699294900834553279248901967638, e, 56396309446115810308722588662736980, 43606569418259492473421754424002376);
    e := OddUp(R, 58781699294900834553279248901967638, e, 43606569418259492473421754424002376, 41247452127839348557193559971532426);
    e := EvenUp(R, 58781699294900834553279248901967638, e, 41247452127839348557193559971532426, 60273352786765568393059048004767158);
    e := OddUp(R, 58781699294900834553279248901967638, e, 60273352786765568393059048004767158, 17935781077466366980090080633886685);
    e := OddUp(R, 58781699294900834553279248901967638, e, 17935781077466366980090080633886685, 16430842475225517589341425812002149);
    e := OddUp(R, 58781699294900834553279248901967638, e, 16430842475225517589341425812002149, 36588309395503799027174081950811862);
    e := EvenUp(R, 58781699294900834553279248901967638, e, 36588309395503799027174081950811862, 46635804452740277961578082113988866);
    e := OddUp(R, 58781699294900834553279248901967638, e, 46635804452740277961578082113988866, 28334687151944976347191379370218119);
    e := OddUp(R, 58781699294900834553279248901967638, e, 28334687151944976347191379370218119, 1);
  }

  lemma PrimeRSmall()
    ensures Reach(2, 39304471641247389600, 56747016255153332959347766392083459, R)
  {
    hide Reach;
    var e: nat := 0;
    NoPower(2, R);
    e := Climb(R, e, 1,
      4, 16, 16,
      2, 4, 17179869184,
      0, 1, 102469992448,
      5, 32, 54651969301387637110966512518401958,
      6, 64, 70907221727050507061373817639835259);
    e := Climb(R, e, 70907221727050507061373817639835259,
      5, 32, 64134687226725695320034102205120082,
      4, 16, 53232007837694667884745803777171609,
      2, 4, 36418643877802785581023883602796239,
      1, 2, 62153849922490962393205786330105307,
      3, 8, 12989690226474060391927371730921649);
    e := Climb(R, e, 12989690226474060391927371730921649,
      3, 8, 36992927490348523016874968511124417,
      2, 4, 48786791113838861753548469283555870,
      6, 64, 23725588849222751655399262015150642,
      4, 16, 57875049575816904056842656006512377,
      7, 128, 13171760403748371563029534295641160);
    e := Climb(R, e, 13171760403748371563029534295641160,
      5, 32, 38877602689008559621761620122014640,
      6, 64, 52923723913192322483970867785578285,
      1, 2, 18935679146042012693248632693634471,
      3, 8, 6531672565481006475695702252069745,
      6, 64, 1888738652562569663194994370406907);
    e := Up(R, e, 1888738652562569663194994370406907,
      4, 16, 25373835843271755692855209936742124);
    e := Up(R, e, 25373835843271755692855209936742124,
      0, 1, 56747016255153332959347766392083459);
  }

  lemma PrimeR()
    ensures Prime(R)
  {
    hide Prime, Reach, Pow;
    Prime75707();
    PrimeL();
    PrimeRLarge();
    PrimeROrder();
    PrimeRSmall();
    ByTwoPrimes(R, 519165620632800, 75707, L,
      58781699294900834553279248901967638, 8986369574106813140303762220009459,
      56747016255153332959347766392083459, 74602835786463724888147869570305675);
  }

  lemma PrimeQLargePart1()
    ensures Reach(2, 18374231546171891981640, 999975625649500912286080534088863466101960910698492601649879715876588, Q)
  {
    hide Reach;
    var e: nat := 0;
    NoPower(2, Q);
    e := Climb(Q, e, 1,
      3, 8, 8,
      7, 128, 2147483648,
      1, 2, 4628638295785084893889451652316424292260435400966618603866447547146307,
      0, 1, 41106090973708891838101389897987714768736839254975085150187961576977279,
      1, 2, 18514553183140339575557806636370751481179352454052794437214332974229758);
    e := Climb(Q, e, 18514553183140339575557806636370751481179352454052794437214332974229758,
      0, 1, 68374371026855152641020612544231144033750809634219457695849954770100602,
      6, 64, 64961799547994725065874281182578296004886195168546757757473856842140142,
      5, 32, 17652139274713192475544312847887692193788048695010724881718111497073447,
      7, 128, 10355961428643959130093307169085410106276413062513769988111674380490959,
      6, 64, 57333618419977659353137420462752924873889950472721819865373196097989936);
    e := Climb(Q, e, 57333618419977659353137420462752924873889950472721819865373196097989936,
      0, 1, 24789395127676740506121990795443316172680824908037540651963435375413451,
      0, 1, 25794811537514061671217865641243215712386975086486431578608802694352962,
      6, 64, 37082647931882427398623371648276235824123678039450548771032855310875358,
      2, 4, 21974114212019433659559660885945426361873837407520300720211005040473906,
      1, 2, 45181290734804820693966866965428402133636454326555877874946793917185790);
    e := Climb(Q, e, 45181290734804820693966866965428402133636454326555877874946793917185790,
      6, 64, 18346078597584348673254757592498050935287390712506105197126223187525062,
      0, 1, 41798357946418270781223368229444732245813545296590575318260733416098041,
      0, 1, 32259316831568265355352392339602711620692714114865623199353385503262499,
      4, 16, 46389651697010524134938358111421301458016973469895535079709533287938454,
      2, 4, 33828936007762808497011543111955492414843289246320578888850315407797608);
    e := Climb(Q, e, 33828936007762808497011543111955492414843289246320578888850315407797608,
      1, 2, 49954247018267400639478274547700329328558255211456670764941595209433734,
      6, 64, 67429644204731085953302479634755481906596003546785610421793126891867068,
      5, 32, 48767240351105272681846202336369063706393231135441187185315757144245082,
      1, 2, 16609732155360190970712018114430129616440436255891635592624638388153923,
      0, 1, 999975625649500912286080534088863466101960910698492601649879715876588);
  }

  lemma PrimeQLargePart2()
    ensures Reach(2, 694158841617025924992764523379082879624693580, 27450854856517511367776299244938734878355786778542976268575531449272881, Q)
  {
    hide Reach;
    PrimeQLargePart1();
    var e: nat := 18374231546171891981640;
    e := Climb(Q, e, 999975625649500912286080534088863466101960910698492601649879715876588,
      6, 64, 31803514822572220289156062795099342274597864049633584675715267654392556,
      3, 8, 9493807042797032635944806014273850683361501286064614536484703472922019,
      7, 128, 38092472508530124247277835993581080589771685417685710040505201468200695,
      2, 4, 65589060776501598804290563247178321167876036293823549237683067292147369,
      3, 8, 15607226933549849188412149648224408871015677297701428383776792889708235);
    e := Climb(Q, e, 15607226933549849188412149648224408871015677297701428383776792889708235,
      5, 32, 64293498626265640742137369508071102737650948951467008432370672468708251,
      4, 16, 2181215040708824600356432598135265150220121148342789236529255445881254,
      7, 128, 371480846283010113703753303046957061135269162680402538856103637020159,
      4, 16, 35794930560100010156687473970915806510700091833258447157997559803131529,
      2, 4, 63808867822073275735339792176675800114600049258448985760339943164548253);
    e := Climb(Q, e, 63808867822073275735339792176675800114600049258448985760339943164548253,
      0, 1, 46866325779079349965483339549245942405815508686002849629816023934934753,
      7, 128, 29965181031249678405723905968250453312745013050990373647487418851313791,
      1, 2, 21477345617446243029579794320946064375794653516798976151512819202325195,
      4, 16, 7035380711417227666590810876491978822955165334061094923159248730604622,
      6, 64, 34242479913380061653905295380126776521067449906465867298438615715131501);
    e := Climb(Q, e, 34242479913380061653905295380126776521067449906465867298438615715131501,
      7, 128, 55642909715198949110656087579556631896400339459121389187075772050635727,
      3, 8, 39748278539264179113990270542757607627332245816611136643167201758124873,
      2, 4, 63805005042265740056709226483707767089215524259352690504020272173818895,
      0, 1, 1853133077678783669732589300477660516315778736200186463272420053820546,
      4, 16, 66349444636844600717434566013060067732219112580049021606643346021351068);
    e := Climb(Q, e, 66349444636844600717434566013060067732219112580049021606643346021351068,
      4, 16, 11582302045526555329138884773835695608530111208948770234021666157146460,
      3, 8, 11858656629378446595141726962850593051525347841258325105880955387974297,
      5, 32, 6132545310875193596639989263877865828778173237518013901740318775212444,
      1, 2, 28945544552793275899767817501475414754652520982321346619971188233883985,
      4, 16, 27450854856517511367776299244938734878355786778542976268575531449272881);
  }

  lemma PrimeQLargePart3()
    ensures Reach(2, 26224579579518894582943068851651129134620030600377442514824065422925, 44959815557586498266090964058205806185499758380963867850274346864325279, Q)
  {
    hide Reach;
    PrimeQLargePart2();
    var e: nat := 694158841617025924992764523379082879624693580;
    e := Climb(Q, e, 27450854856517511367776299244938734878355786778542976268575531449272881,
      7, 128, 16180694220211356100336635633467895081170332421819851797538632019191159,
      4, 16, 36179307482845481609848339157336807716876725707440959508771589476102856,
      4, 16, 59279143469451421606871590215296782828910826651011419913255058996104398,
      2, 4, 71425356840474608203703619733383876824721614982639628445214077477153968,
      3, 8, 9273395263634300767696774319545712325282663412431569638073022185890232);
    e := Climb(Q, e, 9273395263634300767696774319545712325282663412431569638073022185890232,
      1, 2, 49719901405035636036265182483128730562551148702430787287584767140775087,
      6, 64, 13383330637015548203237439836505144976208604605500713258433017541991349,
      4, 16, 47879316742206143557453855281468530878464992872339500386272362612035646,
      4, 16, 69506124794764796401103234442390986621400446984907827537409802044726006,
      3, 8, 71635378315474223223417269613213002416450063839495860258741763946219366);
    e := Climb(Q, e, 71635378315474223223417269613213002416450063839495860258741763946219366,
      4, 16, 62913363721103368732084362876491747483978346392781557758194592040730104,
      0, 1, 38234585936263188113153204429568957384070363044741245686231476072759839,
      6, 64, 6896058679297699710658809421963827842280400631326248736978005083352964,
      4, 16, 4459955485037572473818550997453445193442650770193213446026889776361160,
      3, 8, 12899785298278094841703870254182536624268901905842378209794725337393659);
    e := Climb(Q, e, 12899785298278094841703870254182536624268901905842378209794725337393659,
      2, 4, 35191527780886979788517868408230402756336644898875445135762822817292499,
      7, 128, 15289781587890675861074756926396696876767179997665361435795034600629751,
      4, 16, 51770086851464221031503262704826230357568244217811678366516641334627615,
      1, 2, 40893758467365630351063314254951495285793407343491451367654814655772578,
      7, 128, 45030490995686100096740603283331699454190651584175022797890161775509924);
    e := Climb(Q, e, 45030490995686100096740603283331699454190651584175022797890161775509924,
      1, 2, 14078465667482432715888675118206186499682954554370671364949869695551621,
      3, 8, 23433340034704093956194687962317574205731089868991311340412583612730323,
      1, 2, 71522607620235096512517193311528298171072696053002182409632556650509372,
      1, 2, 17564772476073511330041565379811759915519947610164092978358626475317486,
      5, 32, 44959815557586498266090964058205806185499758380963867850274346864325279);
  }

  lemma PrimeQLarge()
    ensures Reach(2, 209796636636151156663544550813209033076960244803019540118592523383402, 8562916886866218785688304546164188478888058893729309188831496247839076, Q)
  {
    hide Reach;
    PrimeQLargePart3();
    var e: nat := 26224579579518894582943068851651129134620030600377442514824065422925;
    e := Up(Q, e, 44959815557586498266090964058205806185499758380963867850274346864325279,
      2, 4, 8562916886866218785688304546164188478888058893729309188831496247839076);
  }

  lemma PrimeQOrder()
    ensures Reach(8562916886866218785688304546164188478888058893729309188831496247839076, 353, 1, Q)
  {
    hide Reach;
    var e: nat := 0;
    NoPower(8562916886866218785688304546164188478888058893729309188831496247839076, Q);
    e := OddUp(Q, 8562916886866218785688304546164188478888058893729309188831496247839076, e, 1, 8562916886866218785688304546164188478888058893729309188831496247839076);
    e := EvenUp(Q, 8562916886866218785688304546164188478888058893729309188831496247839076, e, 8562916886866218785688304546164188478888058893729309188831496247839076, 16153155050223087298160014462763671619986142323395781531433756842368703);
    e := OddUp(Q, 8562916886866218785688304546164188478888058893729309188831496247839076, e, 16153155050223087298160014462763671619986142323395781531433756842368703, 25171928313862840063030770210551396004168855366508115988049527562160009);
    e := OddUp(Q, 8562916886866218785688304546164188478888058893729309188831496247839076, e, 25171928313862840063030770210551396004168855366508115988049527562160009, 53380830016128662912109928654360594796415752176364461903178265429104804);
    e := EvenUp(Q, 8562916886866218785688304546164188478888058893729309188831496247839076, e, 53380830016128662912109928654360594796415752176364461903178265429104804, 44834681646896416774739443742377987341720075798897526609092454803933452);
    e := EvenUp(Q, 8562916886866218785688304546164188478888058893729309188831496247839076, e, 44834681646896416774739443742377987341720075798897526609092454803933452, 67130183245633195639869939918442703710504314834311865919213873480129168);
    e := EvenUp(Q, 8562916886866218785688304546164188478888058893729309188831496247839076, e, 67130183245633195639869939918442703710504314834311865919213873480129168, 38818018837063819385421431524313588415600254480646167217742265151203685);
    e := EvenUp(Q, 8562916886866218785688304546164188478888058893729309188831496247839076, e, 38818018837063819385421431524313588415600254480646167217742265151203685, 1249425937017005171791187917337941369870552391118378404367688045443375);
    e := OddUp(Q, 8562916886866218785688304546164188478888058893729309188831496247839076, e, 1249425937017005171791187917337941369870552391118378404367688045443375, 1);
  }

  lemma PrimeQSmallPart1()
    ensures Reach(2, 27899017890170531795348, 24299272528052384420260690148753539293873449786856489604039988297761301, Q)
  {
    hide Reach;
    var e: nat := 0;
    NoPower(2, Q);
    e := Climb(Q, e, 1,
      5, 32, 32,
      7, 128, 140737488355328,
      2, 4, 212676479325586539664609129644855132160,
      0, 1, 67350303327341567303664872675307345658867663549221305857041082473184575,
      6, 64, 50018382064960117726139413037012994628874463203589051724205103925874959);
    e := Climb(Q, e, 50018382064960117726139413037012994628874463203589051724205103925874959,
      4, 16, 31026804441375728781910736262517853733312237591303124398479010334543908,
      2, 4, 42939280187358984190817754633417682473964471607542586091661680867112701,
      4, 16, 26468137062010504766510494899990372716311976644238514025378256550645878,
      6, 64, 47260047413850295524340801117859846689527409952507389999000405073549868,
      3, 8, 33032251797657976845775598082804288848602308872313537746715500337914680);
    e := Climb(Q, e, 33032251797657976845775598082804288848602308872313537746715500337914680,
      6, 64, 9873998029049892886497741387572415978018053328879846957763859972516016,
      7, 128, 27761516180245189731908187747824767962457452781687581946686976166293915,
      4, 16, 51023904306648405031493181512252039755800111751213581856066693820252080,
      3, 8, 73994299027674238557536821761741624074404976648766356356064316312414311,
      4, 16, 31080597194559010657524423485039797717674499604036372503093027172496967);
    e := Climb(Q, e, 31080597194559010657524423485039797717674499604036372503093027172496967,
      7, 128, 56850440753119798199641765124701563093724562108599945471550834900632544,
      2, 4, 12607433573230962643467891411585419083539293033581933793753662675160318,
      4, 16, 44910072599201880858785016335765272683153853309518365827614176295667456,
      4, 16, 15709313432981918239605436276139977726167899692337037488190852642013720,
      1, 2, 73006098937535659217249858779868473560363143744827874117540793935541339);
    e := Climb(Q, e, 73006098937535659217249858779868473560363143744827874117540793935541339,
      5, 32, 5074814565478457957282033174263980056348248120341405154030853789348128,
      0, 1, 12219301287136083619979772169428104279429169654296992171429375052505739,
      6, 64, 31449701159615089460857935188139667440059681354380461699459251599772281,
      2, 4, 54980755414433188203062458250353229448483829906751478486261111467667851,
      4, 16, 24299272528052384420260690148753539293873449786856489604039988297761301);
  }

  lemma PrimeQSmall()
    ensures Reach(2, 981609426360740691344999861639072106, 69490809710348678725736597923071784769591275419387514694139338586948360, Q)
  {
    hide Reach;
    PrimeQSmallPart1();
    var e: nat := 27899017890170531795348;
    e := Climb(Q, e, 24299272528052384420260690148753539293873449786856489604039988297761301,
      4, 16, 41038390859567015992972922737202606252633949239260025002469908108295730,
      3, 8, 49193208058566577959104148180871418100167009799773547090851024499038337,
      0, 1, 10828997928446210701989189866324491273221686470919068671602815019785289,
      4, 16, 40688680805101588592102734332792292787896502688139661668364615742469505,
      3, 8, 44777293032195950306999229438824625693916416402529125060476520480059304);
    e := Climb(Q, e, 44777293032195950306999229438824625693916416402529125060476520480059304,
      5, 32, 5714243634965736365600732601690172024192946701703246837947486037928481,
      1, 2, 25367839317771031639952215701897139861415218974366781842116251919875393,
      7, 128, 37997587183541663779003367602879257353611870065895468345626288664735173,
      6, 64, 37207812695334010458645991763120351975762241618636847401056575066841294,
      4, 16, 25627939115667223615495161442228810027303364201690768059766515471224975);
    e := Climb(Q, e, 25627939115667223615495161442228810027303364201690768059766515471224975,
      4, 16, 593108134046836163611118372097765501214679492636961049514195218046251,
      4, 16, 43572807545398728076739399730915348192078017524923048607277794141141400,
      5, 32, 59871792106663572955832521242387634588680708476662779603162677650268597,
      5, 32, 44759233612880384862059565985245276826796294382194269589621359021687200,
      2, 4, 69490809710348678725736597923071784769591275419387514694139338586948360);
  }

  lemma PrimeQ()
    ensures Prime(Q)
  {
    hide Prime, Reach, Pow;
    Prime353();
    PrimeR();
    PrimeQLarge();
    PrimeQOrder();
    PrimeQSmall();
    ByTwoPrimes(Q, 2780763247480851816841359381413802, 353, R,
      8562916886866218785688304546164188478888058893729309188831496247839076, 37940283535957283147790493383286696582099159842122763948555891970476459,
      69490809710348678725736597923071784769591275419387514694139338586948360, 70463328703800545008217672123162676565183935400628861884889913886334520);
  }

  lemma PrimePCofactor()
    ensures Reach(2, 781764, 427094198651976259540344842774561673889945192655078505504941250475370961481, P)
  {
    hide Reach;
    var e: nat := 0;
    NoPower(2, P);
    e := Climb(P, e, 1,
      2, 4, 4,
      7, 128, 8388608,
      6, 64, 1569275433846670190958947355801916604025588861116008628224,
      6, 64, 10855508365998393320959779844564491361244061062403802878699148500741858844108,
      7, 128, 10011112483763715096745842972409582215110234036302095062009100585929643265913);
    e := Up(P, e, 10011112483763715096745842972409582215110234036302095062009100585929643265913,
      0, 1, 29021988539057075980713355158958070277907045233294037432382353502841631121267);
    e := Up(P, e, 29021988539057075980713355158958070277907045233294037432382353502841631121267,
      4, 16, 427094198651976259540344842774561673889945192655078505504941250475370961481);
  }

  lemma PrimePOrderPart1()
    ensures Reach(2, 37778931862957161709567, 2265485014633511331062933614384272003015725064121437119583661948537437760177, P)
  {
    hide Reach;
    var e: nat := 0;
    NoPower(2, P);
    e := Climb(P, e, 1,
      7, 128, 128,
      7, 128, 9223372036854775808,
      7, 128, 722,
      7, 128, 9451648239783810422571008,
      7, 128, 14046422762284079012395795304813587913913707185210629010741763570782359982906);
    e := Climb(P, e, 14046422762284079012395795304813587913913707185210629010741763570782359982906,
      7, 128, 41773579711171363526115061832776734394027191205387144658354332233763888087437,
      7, 128, 29965682538202139238154452199528621436240239400679311591035909128474666598167,
      7, 128, 14357806875099573081046010407345500900557142388859621890028323395882441450808,
      7, 128, 24730223749460300751989297794801363965226145514383745241035203824332555230159,
      7, 128, 31481322809643635092733215727019093627902277071797746415030516831487441729606);
    e := Climb(P, e, 31481322809643635092733215727019093627902277071797746415030516831487441729606,
      7, 128, 31330852820456173428782778976368283529963853047524718861656227614838005523729,
      7, 128, 2312173971283518761497399288637533573442699377561835361619694099549526195053,
      7, 128, 1153787188972287606307593351232234866874600405081045113565790564094448148581,
      7, 128, 37940261703003466530301850464572031464419938347212980071669803697540934661932,
      7, 128, 31618672342086410660348971369570541766697605926830740459969996597839974999480);
    e := Climb(P, e, 31618672342086410660348971369570541766697605926830740459969996597839974999480,
      7, 128, 57216950547371830068827719320242948460997140955201589226694955077452539901594,
      7, 128, 45046667171868977845557852166343106279028118565024834275292957446337603010637,
      7, 128, 14064963947811269298278524791691281423084908609845960596586683121720194887102,
      7, 128, 51233491304434306593820827809579342932574496836920566022732946117164516405071,
      7, 128, 22694371332599253447191450960592330978402329053668220499847134565853973622032);
    e := Climb(P, e, 22694371332599253447191450960592330978402329053668220499847134565853973622032,
      7, 128, 29681671761315073482538582626460610693621576637624872798416464178705770446329,
      7, 128, 46281085050630773963913766411004831667293261619053526625279778566314907641505,
      7, 128, 57140289167386179571914958435061541047398071664847524067297069223469617526842,
      7, 128, 34258166528311316488034424742641032338801523995662611775475450041611407899968,
      7, 128, 2265485014633511331062933614384272003015725064121437119583661948537437760177);
  }

  lemma PrimePOrderPart2()
    ensures Reach(2, 1427247692705959881058285969449495136382746623, 38127182720244788537581039343329974557372141358442408506114334627016172570692, P)
  {
    hide Reach;
    PrimePOrderPart1();
    var e: nat := 37778931862957161709567;
    e := Climb(P, e, 2265485014633511331062933614384272003015725064121437119583661948537437760177,
      7, 128, 43584484221788900868419546690254479977558121850951190428318500286667018333870,
      7, 128, 43765620297419971205843694015456769443004566965438152645146172353629561008700,
      7, 128, 48984009914529255597717947851481220773766393842112514106411440539177103850712,
      7, 128, 30924531555065913850500907411981598969540926802104713979980629951941826051320,
      7, 128, 24829494668832271851873095263695645243787012425653556421762256145675278781242);
    e := Climb(P, e, 24829494668832271851873095263695645243787012425653556421762256145675278781242,
      7, 128, 46946574363901951083065463873840241654700729642342945764501467377662918674888,
      7, 128, 50474905824970365894909409390984680001117021966810417657380743844501021762936,
      7, 128, 33959849040268441603383559630429610870692267676446120304775157931210777468404,
      7, 128, 44666734350811345786922297534185848357330186680870171487507256750286031869603,
      7, 128, 12388985866120953976310377947444982970384487555830578790313727805310640105311);
    e := Climb(P, e, 12388985866120953976310377947444982970384487555830578790313727805310640105311,
      7, 128, 8693388228197790815718534177035537785053224711574691503741616077445171268206,
      7, 128, 31811642783378886829211474911892627132032788008300638327977767020779768187124,
      7, 128, 1852334911467617730563258363249118600141597140885538955656229673690870877083,
      7, 128, 52983284024645604748356606426061694763976161113936548640232552828396605328781,
      7, 128, 55937530409946316548552502116686273223393472796871774714777090375113360366142);
    e := Climb(P, e, 55937530409946316548552502116686273223393472796871774714777090375113360366142,
      7, 128, 21002727013096797169004675847215356244075625075770601455342047954896970189548,
      7, 128, 11338079573254137144714295952580911299677830590163390051859627963489637121218,
      7, 128, 4187519072817056328568485486024279769409738840626811667464950563644469086640,
      7, 128, 50000476100785037372762746889064864080695006262063619269247590084856389364511,
      7, 128, 40106794658385117354770859867621150384110113681558623316461986703750067679724);
    e := Climb(P, e, 40106794658385117354770859867621150384110113681558623316461986703750067679724,
      7, 128, 13112761563863023931459458615335431701999506154879951249469996812584060497067,
      7, 128, 9071231205899977564151271366498780104845740454626553539977526889129436116728,
      7, 128, 14398822984063074768968153532697637190471276264929534688614638524962533306867,
      7, 128, 45971980921394367875587158654687982103435759201417385735055715081479896170116,
      7, 128, 38127182720244788537581039343329974557372141358442408506114334627016172570692);
  }

  lemma PrimePOrderPart3()
    ensures Reach(2, 53919893334301279589334030174039261347274288845081144962207220498431, 52690110670145470389354969733677398040905379530483294791374464377200528971309, P)
  {
    hide Reach;
    PrimePOrderPart2();
    var e: nat := 1427247692705959881058285969449495136382746623;
    e := Climb(P, e, 38127182720244788537581039343329974557372141358442408506114334627016172570692,
      7, 128, 55362729019363284635602246820605937821515778654018841355971440409296941798951,
      7, 128, 21540161437867206792264745630437124108648831241490862309653559019023251050550,
      7, 128, 26389076693310116141985250835199949026874418449444379430995625568753508958665,
      7, 128, 55590360218998282887189888048440386046650429025517689767088323422846948382925,
      7, 128, 27935597705990857044596004281158840715176448634484849678803416174709500393307);
    e := Climb(P, e, 27935597705990857044596004281158840715176448634484849678803416174709500393307,
      7, 128, 43360846569293993820275693050384192156330769926392333168517301831384209752435,
      7, 128, 10174754984538454556267894105915698025200616652384454510632651876057352397932,
      7, 128, 6065461000593967686201644147469699507884414012396859043024075587031478402964,
      7, 128, 684614496836416649787906379392285011927598899598562528098251400672931668907,
      7, 128, 53502266011507298565676768324199732940023720279442518681700110239273703126729);
    e := Climb(P, e, 53502266011507298565676768324199732940023720279442518681700110239273703126729,
      7, 128, 12854018797251641308374136387378939352483716320918111721110096356924659430186,
      7, 128, 40976972857154150938827157254409068204129712880595484192193128742204960992790,
      7, 128, 24233097835806840212876053465345452678284176986654458383856149761728159806764,
      7, 128, 32059910633176193622138024243719773757257401337919911903483392576788485259672,
      7, 128, 36227438829045814509927442875215714798190109276434149535428280465454964479906);
    e := Climb(P, e, 36227438829045814509927442875215714798190109276434149535428280465454964479906,
      7, 128, 43148221398861912654878150651583556894950920730774984615012326700886961205782,
      7, 128, 11056534755336441226498492808108261289195462485940569264063461083603937863743,
      7, 128, 31298399990674153193572642070113929186128749250418980644598906944843612558467,
      7, 128, 2623918248308615220828121720255052394918917448532756518915771777981733340549,
      7, 128, 44073974636539183643196518952896103138684389691110778399627147914726074797884);
    e := Climb(P, e, 44073974636539183643196518952896103138684389691110778399627147914726074797884,
      7, 128, 17144314256986813274476140473712444112177023766797766200554335356044944813034,
      7, 128, 38167929923336629992940764174428308519642977592094795664038841569520591249924,
      7, 128, 9142642502628947595601055162406050501866612098636667730066404712196791034604,
      7, 128, 56713486864942564343515026382452337645161272677378998056718354471378196670542,
      7, 128, 52690110670145470389354969733677398040905379530483294791374464377200528971309);
  }

  lemma PrimePOrder()
    ensures Reach(2, 57896044618658097711785492504343953926634992332820282019728792003956564819948, 1, P)
  {
    hide Reach;
    PrimePOrderPart3();
    var e: nat := 53919893334301279589334030174039261347274288845081144962207220498431;
    e := Climb(P, e, 52690110670145470389354969733677398040905379530483294791374464377200528971309,
      7, 128, 47786050790763851049981906562182647077748863621709482674342791699566717530080,
      7, 128, 32688828802654143177559518765903582606604909550033534751544165635592339447788,
      7, 128, 20249007912788656877858290429492512521631358125394076339539349770885218897450,
      7, 128, 33882242112267496923536051823032213047892495906645674409515910817898777107257,
      7, 128, 54540094052611622470445204756022498502301992064615059872118586784666432192860);
    e := Climb(P, e, 54540094052611622470445204756022498502301992064615059872118586784666432192860,
      7, 128, 3829772649397305401114698789991079656979851534689771153023122197422770815110,
      7, 128, 15513182470649566372280220337745372463859220538938362347543710404034055407928,
      7, 128, 25910928650365661088611546722392363794011740157349981708915610625600295625773,
      5, 32, 38788602997682801834296285904666247971040529424372086091236406538540197302351,
      4, 16, 1);
  }

  lemma PrimeP()
    ensures Prime(P)
  {
    hide Prime, Reach, Pow;
    PrimeQ();
    PrimePCofactor();
    PrimePOrder();
    ByOnePrime(P, 781764, Q, 427094198651976259540344842774561673889945192655078505504941250475370961481,
      55540832096118778044507775605005710249233119951144946814680141076505643269084);
  }
}
