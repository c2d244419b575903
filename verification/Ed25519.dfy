/**
 The constants of Ed25519 (section 5.1 of RFC 8032): 2^255 - 19 is prime, `I` is a square root of -1,
 `D` is not a square, so the curve of the SDKs is one that the results on addition speak of.
 */
module Ed25519 {
  import opened Modular
  import opened Primality
  import opened Edwards

  /** 2^255 - 19 */
  const P: int := 0x7fffffffffffffffffffffffffffffffffffffffffffffffffffffffffffffed

  const D: int := 0x52036cee2b6ffe738cc740797779e89800700a4d4141d8ab75eb4dca135978a3

  const I: int := 0x2b8324804fc1df0b2b4d00993dfbd7a72f431806ad2fe478c4ee1b274a0ea0b0

  /** Prime factors of P - 1, Q1 - 1 and Q2 - 1. */
  const Q1: int := 0xabaf8c6b094fd0f32c2ccabab864dbecd99144679c1adf804898fb2042b
  const Q2: int := 0xe87c2a477b815a1793787395b23e1
  const Q3: int := 0x6d1cafa129d0b

  /******* Certificates *******/

  lemma Prime3()
    ensures IsPrime(3)
  {
    ByTrial(3, 2);
  }

  lemma Prime7()
    ensures IsPrime(7)
  {
    forall d | 1 < d < 3
      ensures !Divides(d, 7)
    {
      assert 7 % 2 != 0;
    }
    ByTrial(7, 3);
  }

  lemma Prime83()
    ensures IsPrime(83)
  {
    forall d | 1 < d < 10
      ensures !Divides(d, 83)
    {
      assert 83 % 2 != 0 && 83 % 3 != 0 && 83 % 4 != 0 && 83 % 5 != 0 && 83 % 6 != 0 && 83 % 7 != 0;
      assert 83 % 8 != 0 && 83 % 9 != 0;
    }
    ByTrial(83, 10);
  }

  lemma Prime353()
    ensures IsPrime(353)
  {
    forall d | 1 < d < 19
      ensures !Divides(d, 353)
    {
      assert 353 % 2 != 0 && 353 % 3 != 0 && 353 % 4 != 0 && 353 % 5 != 0 && 353 % 6 != 0 && 353 % 7 != 0;
      assert 353 % 8 != 0 && 353 % 9 != 0 && 353 % 10 != 0 && 353 % 11 != 0 && 353 % 12 != 0 && 353 % 13 != 0;
      assert 353 % 14 != 0 && 353 % 15 != 0 && 353 % 16 != 0 && 353 % 17 != 0 && 353 % 18 != 0;
    }
    ByTrial(353, 19);
  }

  lemma Prime991()
    ensures IsPrime(991)
  {
    forall d | 1 < d < 32
      ensures !Divides(d, 991)
    {
      assert 991 % 2 != 0 && 991 % 3 != 0 && 991 % 4 != 0 && 991 % 5 != 0 && 991 % 6 != 0 && 991 % 7 != 0;
      assert 991 % 8 != 0 && 991 % 9 != 0 && 991 % 10 != 0 && 991 % 11 != 0 && 991 % 12 != 0 && 991 % 13 != 0;
      assert 991 % 14 != 0 && 991 % 15 != 0 && 991 % 16 != 0 && 991 % 17 != 0 && 991 % 18 != 0 && 991 % 19 != 0;
      assert 991 % 20 != 0 && 991 % 21 != 0 && 991 % 22 != 0 && 991 % 23 != 0 && 991 % 24 != 0 && 991 % 25 != 0;
      assert 991 % 26 != 0 && 991 % 27 != 0 && 991 % 28 != 0 && 991 % 29 != 0 && 991 % 30 != 0 && 991 % 31 != 0;
    }
    ByTrial(991, 32);
  }

  lemma Prime9463()
    ensures IsPrime(9463)
  {
    hide Power;
    Prime83();
    Prime3();
    var e, y := Start(9463, 3);
    e, y := Window(9463, 3, e, y, 0, 0, 1, 0, 0x1, 0x1, 0x3, 0x9);
    e, y := Window(9463, 3, e, y, 0, 1, 1, 0, 0x51, 0x2f5, 0x18c8, 0xc5);
    var f, u := Start(9463, y);
    f, u := Window(9463, y, f, u, 0, 0, 1, 1, 0x1, 0x1, 0xc5, 0x221c);
    var g, v := Start(9463, y);
    g, v := Window(9463, y, g, v, 0, 1, 0, 1, 0x1, 0xc5, 0x3bd, 0x2b7);
    g, v := Window(9463, y, g, v, 0, 0, 1, 1, 0x19c, 0x22a9, 0x1a92, 0x25f);
    var h, w := Start(9463, v);
    h, w := Window(9463, v, h, w, 0, 0, 1, 1, 0x1, 0x1, 0x25f, 0x1);
    TwoPrimes(9463, 83, 3, 3, e, y, u, v, 0x19ce, 0x242c);
  }

  lemma Prime37853()
    ensures IsPrime(37853)
  {
    hide Power;
    Prime9463();
    var e, u := Start(37853, 2);
    e, u := Window(37853, 2, e, u, 0, 1, 0, 0, 0x1, 0x2, 0x4, 0x10);
    var f, v := Start(37853, u);
    f, v := Window(37853, u, f, v, 0, 0, 1, 0, 0x1, 0x1, 0x10, 0x100);
    f, v := Window(37853, u, f, v, 0, 1, 0, 0, 0x6c23, 0x1352, 0x2696, 0x6c37);
    f, v := Window(37853, u, f, v, 1, 1, 1, 1, 0x33ce, 0x5832, 0x832d, 0x6a6);
    f, v := Window(37853, u, f, v, 0, 1, 1, 1, 0x4e08, 0x5437, 0x24f7, 0x1);
    OnePrime(37853, 9463, 2, e, u, 0x8026);
  }

  lemma Prime75707()
    ensures IsPrime(75707)
  {
    hide Power;
    Prime37853();
    var e, u := Start(75707, 2);
    e, u := Window(75707, 2, e, u, 0, 0, 1, 0, 0x1, 0x1, 0x2, 0x4);
    var f, v := Start(75707, u);
    f, v := Window(75707, u, f, v, 1, 0, 0, 1, 0x4, 0x10, 0x100, 0x88cf);
    f, v := Window(75707, u, f, v, 0, 0, 1, 1, 0x1653, 0x7b14, 0x7fb4, 0xae24);
    f, v := Window(75707, u, f, v, 1, 1, 0, 1, 0xa9d7, 0xb51, 0xfd47, 0xa420);
    f, v := Window(75707, u, f, v, 1, 1, 0, 1, 0x83b8, 0xd917, 0x93dd, 0x1);
    OnePrime(75707, 37853, 2, e, u, 0x6294);
  }

  lemma Prime8574133()
    ensures IsPrime(8574133)
  {
    hide Power;
    Prime991();
    Prime3();
    var e, y := Start(8574133, 2);
    e, y := Window(8574133, 2, e, y, 1, 0, 1, 1, 0x2, 0x4, 0x20, 0x800);
    e, y := Window(8574133, 2, e, y, 0, 1, 0, 0, 0x400000, 0x57f754, 0x800117, 0x249ffa);
    e, y := Window(8574133, 2, e, y, 0, 1, 0, 0, 0x5e0c, 0x1b75ad, 0x4c7d6e, 0x1ca8d8);
    var f, u := Start(8574133, y);
    f, u := Window(8574133, y, f, u, 0, 0, 1, 1, 0x1, 0x1, 0x1ca8d8, 0x346cd1);
    var g, v := Start(8574133, y);
    g, v := Window(8574133, y, g, v, 0, 0, 1, 1, 0x1, 0x1, 0x1ca8d8, 0x346cd1);
    g, v := Window(8574133, y, g, v, 1, 1, 0, 1, 0x32c3cf, 0x40bea0, 0x15069c, 0x3e10b0);
    g, v := Window(8574133, y, g, v, 1, 1, 1, 1, 0x745a16, 0x3cb523, 0x73fa2b, 0x6c0491);
    var h, w := Start(8574133, v);
    h, w := Window(8574133, v, h, w, 0, 0, 1, 1, 0x1, 0x1, 0x6c0491, 0x1);
    TwoPrimes(8574133, 991, 3, 2, e, y, u, v, 0xf79eb, 0x79ab6);
  }

  lemma PrimeQ3()
    ensures IsPrime(Q3)
  {
    hide Power;
    Prime8574133();
    Prime7();
    var e, y := Start(Q3, 2);
    e, y := Window(Q3, 2, e, y, 0, 0, 0, 1, 0x1, 0x1, 0x1, 0x2);
    e, y := Window(Q3, 2, e, y, 1, 1, 1, 0, 0x8, 0x80, 0x8000, 0x40000000);
    e, y := Window(Q3, 2, e, y, 1, 0, 0, 0, 0x1c6c0cead3f65, 0x6a26186ae5aa0, 0xdcc12f7534e7, 0x53600c0e974f2);
    e, y := Window(Q3, 2, e, y, 0, 0, 0, 0, 0x3b704109eb875, 0x3d07088aa4929, 0x1779ee686488c, 0x53c526e549f1e);
    e, y := Window(Q3, 2, e, y, 0, 0, 0, 1, 0x2c1078bba4c87, 0x3210f8243ae4, 0x5f597a46ebc4d, 0x43a49438447ae);
    e, y := Window(Q3, 2, e, y, 0, 1, 0, 0, 0x3fe9b3f650bf, 0x54157584f72dd, 0x4e0a8cb11c983, 0x6093199fadceb);
    e, y := Window(Q3, 2, e, y, 1, 1, 1, 0, 0x2c43d77a19da5, 0x57f8de51d95b3, 0x3b80f035bb032, 0x43496c52f322a);
    var f, u := Start(Q3, y);
    f, u := Window(Q3, y, f, u, 0, 1, 1, 1, 0x1, 0x43496c52f322a, 0x6867c9c08a82, 0x3c3ffdef7c0b1);
    var g, v := Start(Q3, y);
    g, v := Window(Q3, y, g, v, 1, 0, 0, 0, 0x43496c52f322a, 0x46ea0d38d9f77, 0x28e212b6a3c3a, 0x289dc596d9455);
    g, v := Window(Q3, y, g, v, 0, 0, 1, 0, 0x412f30b3e725c, 0x114048aa0aed0, 0x417cf80aff6d5, 0x29df2df8a9b54);
    g, v := Window(Q3, y, g, v, 1, 1, 0, 1, 0x627884d5e3056, 0x61d865374b54, 0x6af9ee05d121e, 0x462fb106d6952);
    g, v := Window(Q3, y, g, v, 0, 1, 0, 0, 0x790181a93ea8, 0x36b5c61edc913, 0x99fab1e87d5b, 0x4c39fb0c2ad9d);
    g, v := Window(Q3, y, g, v, 1, 0, 1, 1, 0x56a05784ce15e, 0x1128147e10c90, 0x5a5e2578b5335, 0x3db2393cafed2);
    g, v := Window(Q3, y, g, v, 0, 1, 0, 1, 0x64002b9c0bc9d, 0x5602db392c1f, 0x66d0751708dc, 0x3feed21da4894);
    var h, w := Start(Q3, v);
    h, w := Window(Q3, v, h, w, 0, 1, 1, 1, 0x1, 0x3feed21da4894, 0x5fe78ad2b010b, 0x1);
    TwoPrimes(Q3, 8574133, 7, 2, e, y, u, v, 0x495bef080ea35, 0x26bd6058faef6);
  }

  lemma PrimeQ2()
    ensures IsPrime(Q2)
  {
    hide Power;
    PrimeQ3();
    Prime75707();
    var e, y := Start(Q2, 2);
    e, y := Window(Q2, 2, e, y, 0, 0, 0, 1, 0x1, 0x1, 0x1, 0x2);
    e, y := Window(Q2, 2, e, y, 1, 1, 0, 1, 0x8, 0x80, 0x4000, 0x20000000);
    e, y := Window(Q2, 2, e, y, 1, 0, 0, 0, 0x800000000000000, 0x5e0f56e211fa97a1b21e31a93707c,
      0x9b326b2549f560893f04e780cd45c, 0xbeb0c2fbdc79a263ca33f9e9a890);
    e, y := Window(Q2, 2, e, y, 0, 0, 1, 0, 0x9a223301bc0d23e6d0a4b343e09ee, 0xdc4916579601a1b979007d947ed01,
      0xa5043a73371afd550c5beb15e790a, 0x4593dbdc1f61900ece263585fb171);
    e, y := Window(Q2, 2, e, y, 1, 1, 0, 1, 0xc20a42be26d02b6497f2f3270bce4, 0x99488601d4bf17901491060eeb2cd,
      0x7c5a2d4e7e98c6bef78a7bd0e31e5, 0x3cd1344881cd87fd2eb9da738f487);
    e, y := Window(Q2, 2, e, y, 1, 0, 1, 0, 0x5dcc417f849a6e02d6b56b9b74a18, 0xbfc6581fac259e3b7739ed696bf2,
      0x5849d522f1875adc96bae7367abd6, 0x63adec1a7886356c8f076833866f9);
    e, y := Window(Q2, 2, e, y, 1, 0, 1, 0, 0x3ad9791bd37c43b222d2b1c95cd15, 0xd9b6ad5b536f6258cc60db919682d,
      0x7dbe3e262b564e89ccf9b19b1fff1, 0x706b9679528a8940b1a50a518ce1a);
    e, y := Window(Q2, 2, e, y, 0, 1, 1, 0, 0x11fb5641a99e1db95794023594762, 0x7d9d5a6d54b5649231389ceddd002,
      0xbcc49d26f7d015d1f870bb44d7b9d, 0xbc7c486c12835d9c54cf563e4329e);
    e, y := Window(Q2, 2, e, y, 0, 1, 0, 1, 0x3388f05cc18c19c9f098cb90a4538, 0x4b8d04bf294b2e8e94e7cb960f91f,
      0x8bec5eec83b213f934a7efb42b4f5, 0xc2440ac645f7559893bc4534c45ad);
    e, y := Window(Q2, 2, e, y, 1, 0, 1, 1, 0x7830e4efedc510231faa4dbec459d, 0x92530f98826f7c5c818cbbf0d3895,
      0x7dcb62a0d10c5c1c5c4f7e079e518, 0x4cfbfda8880655f4133e0367e70ad);
    e, y := Window(Q2, 2, e, y, 1, 1, 0, 0, 0x4c265c6beb07bd2515f5dc442ecdb, 0xaf0f759e61ee9d11ee31dcdd78ec3,
      0x4a0c9ba03d28c6a55286996da3d1d, 0xa9c74faa1e145da874625062ace2c);
    e, y := Window(Q2, 2, e, y, 1, 1, 1, 0, 0xa2d8eef79f011ce4a9e8f876d7b2e, 0x9715965d108ab193a6edb3524741b,
      0x7605518440aa704ed67531ae3563f, 0x26390831f8f262786b45257792f71);
    e, y := Window(Q2, 2, e, y, 0, 0, 0, 0, 0x51d767104760f1e2745f203d03878, 0xb62b45eea84d2393d8b952418c489,
      0x45ea428d01b699bcf3c97f4bcfd4d, 0xcd50d7e224063ed114117a57cb35f);
    var f, u := Start(Q2, y);
    f, u := Window(Q2, y, f, u, 0, 0, 0, 1, 0x1, 0x1, 0x1, 0xcd50d7e224063ed114117a57cb35f);
    f, u := Window(Q2, y, f, u, 0, 0, 1, 0, 0xbbe3b6bd8488834935e0812c2cf6e, 0x7a0c8be5b615b057323ef5e851090,
      0x9cacbde2a5ac1456b209d4e2f90c2, 0xc70e41bd1a56f8d05e754185b53dc);
    f, u := Window(Q2, y, f, u, 0, 1, 1, 1, 0x9a66eeaa55571e9cfa91806030176, 0xa2f634fb535fd3455ac639d154a56,
      0x29608a7fe0d4fdb95e797593eb180, 0x379738cd34cd28404806d94195684);
    f, u := Window(Q2, y, f, u, 1, 0, 1, 1, 0x8295bc0ee535a9c45e0932059118b, 0x4a3519abd9897cb7500dc3e2d8ee0,
      0x8c0b5e49ec5b3ac69db55703e2c61, 0xb677f2941dea34fc79ddb48b30b6c);
    f, u := Window(Q2, y, f, u, 1, 0, 1, 1, 0x44732ccc04bcba058262af989720f, 0x3ba9696e98901c47cc61a9a335c32,
      0x14db7440d7e3a78ac490d0449c8db, 0xaedd80ab27e8de3ca5f2fb22d5403);
    var g, v := Start(Q2, y);
    g, v := Window(Q2, y, g, v, 0, 1, 1, 0, 0x1, 0xcd50d7e224063ed114117a57cb35f, 0x8c877005db83b3b8e1a3dd607a64d,
      0x9a49382e4efb110d2b4d41821ea98);
    g, v := Window(Q2, y, g, v, 1, 1, 0, 1, 0x9aeb049b206185be9d6be50a1a9d4, 0x2e67484364b818f389bc510fc2757,
      0x9cdae0e5a1c3eeb08633f265335b6, 0x4158f38126ec3169b45d9c4123fe9);
    g, v := Window(Q2, y, g, v, 0, 0, 0, 1, 0x131d3c1a4e3ff5e5e5d2f4fbf905d, 0x347904fe3237559b90a2ffaa9a939,
      0x2fac493c47c59e1c961dd1ac5c4ef, 0x70c675034d51b6c7f12c3032c2d06);
    g, v := Window(Q2, y, g, v, 1, 1, 0, 0, 0xaeee16af279d34fb43b6e9c29526c, 0xcbb221ab95c6296a4810d7a405e3a,
      0x5b5f59aaa4cab0dde402d1e4c0ada, 0xd5733fc23af8a35da6a6fd6d7f63d);
    g, v := Window(Q2, y, g, v, 1, 0, 1, 0, 0xbed4d93705d3a4762aff0b2cd2af9, 0xb50349cbe0c840659b76ff8b5f1a,
      0x37ff113054a9bca18b0da7a9483a3, 0x8b12d3f43896a2b0a366bb80de296);
    g, v := Window(Q2, y, g, v, 1, 1, 1, 1, 0xcc7ad6ad15de87b2c961d3f3f5730, 0x55c3fa4f0101cfe5cb2874c0c17a4,
      0x5016b6c99f1f5603fe88d701c6434, 0x13bf66c3df84376829eed9e77dd8b);
    g, v := Window(Q2, y, g, v, 1, 0, 1, 0, 0x87375d4060eda557219ef20360fbb, 0xf249e5eb50a1731bf070fae017c2,
      0x7924816eb5a5295af9266961c61e9, 0xb63700490d35a752ac254ce6f140);
    g, v := Window(Q2, y, g, v, 0, 0, 0, 1, 0x98ed5c3aac137286007bcf9bdf2af, 0x9b2b982eee73c7ba505217b23276a,
      0x54659d0191e7ec6ca825f3eaaf696, 0x3236b2332d185bd5506aa0441135b);
    g, v := Window(Q2, y, g, v, 0, 0, 1, 0, 0x84681c3448bedef2a4b3bd398b806, 0x51f4ee255fbd41c50a099bdb473bc,
      0x2979d02cd08f36a6a783f24f33bd7, 0x688e983d589e99fa7970def9a7501);
    g, v := Window(Q2, y, g, v, 1, 0, 0, 1, 0x7d3281d17369f20a3136c0a865d56, 0xba4674824ac4873ddfa723e08b553,
      0xc146e82396fce7e0b36f83b718438, 0xb6535c26a5e1a6a141185cc91e19d);
    g, v := Window(Q2, y, g, v, 1, 1, 0, 1, 0xa7f96d83bde0c39a95f2bc5ac8d98, 0x46fa407373a51722349f66221cb94,
      0x891d2bdeb4fdc9dc5bc7a8b1dea1b, 0xe1fcb8ac2957f692861c209dd7a25);
    g, v := Window(Q2, y, g, v, 0, 0, 0, 0, 0xac17c071c0d41e7e8beb6df1769f1, 0xcf8dd8439c13ebb89aae83d1bb8f5,
      0xda4a2ab6de26833fcbe888c4ae314, 0xd5870c50fa775fa3b2277cbf162);
    g, v := Window(Q2, y, g, v, 1, 0, 1, 1, 0x1a5fe3dc6dfcf7518235f1afff479, 0x8a7531bd8fa2dfe8050aaf9a80edb,
      0x156508af141dbeafc5826f72a5a95, 0xb52295a2da9f8731db89340ad8f16);
    var h, w := Start(Q2, v);
    h, w := Window(Q2, v, h, w, 0, 0, 0, 1, 0x1, 0x1, 0x1, 0xb52295a2da9f8731db89340ad8f16);
    h, w := Window(Q2, v, h, w, 0, 0, 1, 0, 0x3b62fbf0454bfca4ca95012ca0a4e, 0x2174c0a841e2df47e13363bef9ea2,
      0x74ab5e34e8fea10de53c9c15967e5, 0xcfd659340de94c881dab80db7037e);
    h, w := Window(Q2, v, h, w, 0, 1, 1, 1, 0x4665a56cda2cd66895218e6498bbb, 0x282892bd7af02fdc6b74bc6a00cb5,
      0xadc8d7fe15e40d703b1ef31a9a854, 0x865f84902bb650cd8fd9bc7728748);
    h, w := Window(Q2, v, h, w, 1, 0, 1, 1, 0x7f1a809ed5b9b36afa3559e8d0e8a, 0xb9bb4aa8ec80f1b5aa6826013cdb6,
      0x3744d624a468fd4305d47d54917dd, 0x32a1a63676b5a7639cbf583865565);
    h, w := Window(Q2, v, h, w, 1, 0, 1, 1, 0x70bf163d20d729e8374cd4e4286d6, 0x8fb529b4e1ef48735493911e8a902,
      0x575020802d820ae722f9f7eb09287, 0x1);
    TwoPrimes(Q2, Q3, 75707, 2, e, y, u, v, 0xe5e342b4c0a3d507894bab5f20e8b, 0x1bb0fee20f00433b82723f09a47f3);
  }

  lemma PowersQ1() returns (e: int, y: int, f: int, u: int)
    ensures e == 0x891a2aa66a894c38b5b72432bfaa && y == 0x3b8bff09155618f62e824b83b881dfd51d8898dc0ca80d9be95a7329c16
    ensures f == 353 && Power(Q1, 2, e, y) && Power(Q1, y, f, u)
    ensures (u - 1) * 0xa35a14fb1452ddd0fca6eef50ac9bd9a369cab894104fc366d4fa595e38 % Q1 == 1
  {
    hide Power;
    e, y := Start(Q1, 2);
    e, y := Window(Q1, 2, e, y, 1, 0, 0, 0, 0x2, 0x4, 0x10, 0x100);
    e, y := Window(Q1, 2, e, y, 1, 0, 0, 1, 0x20000, 0x400000000, 0x100000000000000000,
      0x20000000000000000000000000000000000);
    e, y := Window(Q1, 2, e, y, 0, 0, 0, 1, 0xa00000, 0x640000000000, 0x271000000000000000000000,
      0xbebc2000000000000000000000000000000000000000000);
    e, y := Window(Q1, 2, e, y, 1, 0, 1, 0, 0x2c68af0bb14000000000000000000000,
      0x79c611d2a68aaf241fbc8eda673427957b79f5a79d06f0e15bc5c8df912,
      0x4f62c28c2062f575e2a6a87abca04b9b5e2494b7a5b97d8667e68bfd62e,
      0x48fef4fed7feeb2406461b9cf8c71a019de6652b36d2870973f3941ec40);
    e, y := Window(Q1, 2, e, y, 0, 0, 1, 0, 0x6b0fae4e771d10fb56f178550497d6a2bc23e1ccae9028781ee7e2d17eb,
      0x3c1ddf66367a608f56eb0aa9e7d60381d3b0240af9543705ebef95b2bf8,
      0x9030a361c1c44fc45efe10ee948151d103bba81ba56af915a38f578624d,
      0xa5b364dbd2f54ddae90d964103e3daedd4cbd9195eff406705edfc3ceac);
    e, y := Window(Q1, 2, e, y, 1, 0, 1, 0, 0x42ed216b020418f5df70f46cce9ff9eb19d2c58c58accf3878e446d9832,
      0x85d6740f7401488c34b3e214685256dfb86bbbd3633138e4cb90e19985b,
      0x1425af5bf93fb49920a56c57d99da359ead7d27d7c20a0fe860c44f97e2,
      0x9ea7211259b2438c8d7736d646c54f72c9bea2b9537439bdfc2667fc66b);
    e, y := Window(Q1, 2, e, y, 1, 0, 1, 0, 0x75c97fdf44b4d64c82ea074078348c61e1f067c6fd0ddc7d5a671869cb9,
      0x2b084f81541d0ebcaf0785fbeeeaedb373a42b078211a518f39a7ded6c2,
      0x8e62de37e0115224f10d212762b75423be2c5cb53fb039225cabd75b544,
      0x98c1b17628f2139d4aa90494a7c20a0fd38e5db8c490fc47cf36ecbb80c);
    e, y := Window(Q1, 2, e, y, 0, 1, 1, 0, 0x96f6574e94062a62367c73ee491d137752f90e0a0487f18947fae6bd8d9,
      0x55cd0d4d990eb9ca1e0ac5431e92c66e86a6e97e49fd16895f328f47049,
      0x8fc69cb3770ca78e7c8165a5e75445f0007b34035c3f64e4fba476c414b,
      0xa0a21049aa9acb7d39deee264c2aeecbef9ef517fcd54f113ee1cbd1238);
    e, y := Window(Q1, 2, e, y, 0, 1, 1, 0, 0x6eea7ab73381b5e1201d5ab729ffbc7d9b1320832eb7c10bc287788685a,
      0x40c10c3e577f304ae91f6459eb04e4ef1b870b175f7ce2af58501359f0c,
      0xa90c76845e934a4b2f2433aff09f8f2022064c697eb7e026190e018e622,
      0x1a4cb7e2a844590086b646e074bc7961432a22b6312784ef85e9598e6be);
    e, y := Window(Q1, 2, e, y, 1, 0, 1, 0, 0x41eddf3b2877650cd49bacdb82dab0c701f416de630bdc20b48237216ed,
      0x8b16a82384e83ae953e7a6b9936d42ce3568a3ee2cbc300a0f7477c80ae,
      0x9a91ac8c88b52f9ebc1f337d393c08c5d6430a31990f178d84ba69f292d,
      0x14b2ead6634fdb338716d9c8d82aac13fecb580265a06f0a27af1bfdd45);
    e, y := Window(Q1, 2, e, y, 1, 0, 0, 0, 0x326b9f6628cc1e95ecc805d5c6881be98ce17f3afc1198c34a65570140e,
      0x83c607051f749739ab1797e23451f7d8904ac57a7f4ec4f6a2b8e70d90f,
      0xa7c3757ccd36a117cae39997e86485b26cf5b7e5b63532c214a8af5e61e,
      0x4e478adc7fcb0a7e8116bdc3cc7266081501b72a88dff3ddc3f922a1e90);
    e, y := Window(Q1, 2, e, y, 1, 0, 0, 1, 0x271b0310923104ad434405ac76dd7280817d2a5d0d840b6301d975f940,
      0x6ae4d15c7bddec3176576277b5d6e4dab49a81b530454e47d7c636fa6ee,
      0x3d0c2dbc3ff9b45504429946589876cc678ffc3f2410e6f67b1deb329ae,
      0x36df624cd065586423f6d8c94d9b73965ea869e2cda3248ade34b1eef5c);
    e, y := Window(Q1, 2, e, y, 0, 1, 0, 0, 0x99516a1b520af07356fc276f75d37ca023df01b8f8c1d26f146223fd4ee,
      0x8596628bbdd0eccda05687c967c2322aaadb932d69d2fa2ab1e421d2914,
      0x34b0118716b383eb4c0b68929e05584f15b5f4ea66eea61919daa38770a,
      0xe76a7b8fb42a08911d3f44bb4bc8e85fea085d750d9bc4bcd4b74bbe3);
    e, y := Window(Q1, 2, e, y, 1, 1, 0, 0, 0x47a79b0e4acc682bd739db3b19f7cde09c2aeb0ed51b34293a5b773ba94,
      0x7ba31f1a7ee76572523a40c7c01123a6b85d5985000a20f6bcc6cf9631d,
      0x904616e509213d229c8d6addb35411b6903e8da9400db3db104753d4abf,
      0xa1b688602bcb3371b3f0d528642cb6e03173547c05f554f480dddec2334);
    e, y := Window(Q1, 2, e, y, 0, 0, 1, 1, 0x18ed4167b3af84bbe4998f20ee340ee1aa66f0de75578fa8a301535ba5c,
      0x3db7321b9be787e0bd99ffe0f4540273644953af7f75e64199851e40a0c,
      0x75de4c42c53613911f25617c880d37563b696320b7baab500e2c014c037,
      0x364ef0936714588e85a63b8d15ac26c59505af64d102c741d1e4fbfb025);
    e, y := Window(Q1, 2, e, y, 1, 0, 0, 0, 0x43cacf313f9053a5df1f52fc34e3da93c6348ca272fd210c5709e4afd07,
      0x1cfefc4d0e19973daddb9c027dcaafb750c1fbb15cc3f4bcc2406a853e5,
      0x134f8ffab4352ac19a906ddec463b07b73ce4f0daef39e7189f76fc6288,
      0x71c88e51b79f4e20b619f815d8560e92ef3fae2a11429996550c1b5b080);
    e, y := Window(Q1, 2, e, y, 1, 0, 1, 1, 0x3d0194b6bd0e4bf981a3de832b61fc761cd3bc116abc8bebdbdadabfedb,
      0x46861d26abd8189506e9e359c273b835f42d7f133aebd6e0f674404eea4,
      0x1f7f555dd313bbca2a2b7f6161ecfc57e70e07cc42948821412b9eef391,
      0xa36fc62a85e211fe3032c1b24236d9f418d266d1ec3e8955d6ad0618fba);
    e, y := Window(Q1, 2, e, y, 0, 1, 0, 1, 0x353aebc20f3da35848ac84c5dc0b63294ae648e917adf7d8a5d4218f24e,
      0x17ed414b657389c8f9eb48b6a001a70a1cfac8534fe1600d8a3b689315,
      0x2291e8d59d0ba0d84917b9adac4d3afcca32ad71977249032e31826dd8c,
      0x317a5f1a6eab74126f31c2131c63d02627fb0a19eb013bff19bb0b58f17);
    e, y := Window(Q1, 2, e, y, 1, 0, 1, 1, 0x4c4430bc926e5fedcc78528400b3d9babdadd4bfaf6806deb5f2d38d2d4,
      0x2b1cb83800d33ad89927c0471ecaa478af0fb4314d0e28e507a9dc76250,
      0x9cbbda3aabba5023f4e77b8febac5fb8ee5bf8923b238e9bfcbbcd75dac,
      0x52d0ab3cb34818f4ab0604ca70501a5e74802232a149d0ac88e6f280b92);
    e, y := Window(Q1, 2, e, y, 0, 1, 1, 1, 0x794844b80490b48b6a97421248b353f6cd3bb8b44f49b62b97e61836b4b,
      0x444f9afcc37d2954f0b35eeaa9d16f47d76543ec397ee9f196be6b7a301,
      0x924da51c13b241c01efe3f8502128de64b45f28d386a131a08e52e7c7e6,
      0x412a5003512b17bb9083da038c24720c830b47f2c1e813f693f427235a9);
    e, y := Window(Q1, 2, e, y, 0, 0, 1, 0, 0x72f367d67cc8e28b3bb466ec849700db6a68a1b61d19eaf47fab1a572b3,
      0x87accbcc7536d4931203ea85de5cfcc64cfa3f3400a649562ea326ec0d1,
      0x505973bcafe123830ff9318c28c465cb398fa5cbc20c806619c3f7adb3e,
      0xa7ecb27e845961312647824b7a5f1f2809fea19d4ba350978b3a8a287ea);
    e, y := Window(Q1, 2, e, y, 0, 1, 0, 0, 0xf17b557b0f2412b62ce0c2d1901ba4d7879943ad2dab296807036d9dbe,
      0xa5fbce1bcdc263987b815d2684316978b994a083f6d8968fdb102227044,
      0xa9b40a6f4cf789f9917bbafb761622765811365ce5ab9a45f4fd009b52e,
      0x3c751f78112bf717eabd7d622c1ea3bc4e1a2127ae93f78d7774d47aa76);
    e, y := Window(Q1, 2, e, y, 0, 0, 1, 1, 0x79cbe97a5085f5362fae00fb38c9e440888d5a4265955a59f39f2ba20af,
      0x170c689720cc5ee2271facb0be93d11995029953be3b23aa6971b8a4eb7,
      0xe2f45b1c057f5bded736a2acbc584fc4bf3866f79eb0a8baf4064ab7d8,
      0x75a6f2847154678786c7bad365f97e427448a5744590313fdfe921c8316);
    e, y := Window(Q1, 2, e, y, 0, 0, 1, 0, 0x83d602045cb64943ad59fdf128c621f1205f50ba4521e83008fbfb48eb4,
      0x6d99e61393d27ad90da2cc1516edfcc171a192269fbb0a9a229984b5d55,
      0x9607a4e79bbead010a65d4520ff5fd6bc463424c22e25700381ee7b971d,
      0x15de8513d244a7b0efb16bc52f958ba876d46345764263bedb54564fd9d);
    e, y := Window(Q1, 2, e, y, 1, 0, 1, 1, 0x71655bb9f6b7f4077f8d8f9dfe521d5a6be023f838767b825f963c36ca,
      0xa25a231d39f5cdfcdb10a10f11946343312d44ec1c6abf7383982038bbd,
      0x7bd748237d11a053936fe02bb908b1cf35f44eb9f202fc7bcbf1733d640,
      0x70294a2435bb4ba194e3b205e3dadffd7fff494f2f430824793af7a5c9);
    e, y := Window(Q1, 2, e, y, 1, 1, 1, 1, 0x1851c3299ba685918dd73d2f0fff3b7f7c92a53328130b6d60fd87c92cf,
      0x59875261ef70abd8f7131120d41611e2369cd5822416f75049c7d8c4d2a,
      0x29965f00d82d2c9716b628dbbe8bd99fcffb6919c65b5ff47e6f394a776,
      0x108e0c61ab3b5ea12a98f0e007ce665d525e1ce94b6612f8bdf3141db97);
    e, y := Window(Q1, 2, e, y, 1, 0, 1, 0, 0x6c03cc54b4e1871087ed1a9381f95ef1032209a217eee60e059017c8130,
      0x6f7a2c3c7c10cb3cd6da0f3959fd0aec15913005b93ff56da0a87f026c2,
      0xfa355cd21b0a03a0df0fd946e65d3bfd1ef49b0fc7ab9b1872f856f0db,
      0xb44c41d3821e5231b41dab5e6495079222b17b97d78e41f57ce645a534);
    e, y := Window(Q1, 2, e, y, 1, 0, 1, 0, 0x263331faa68898961973bcfa58cf94d03cd2624237d87151f996bde17bf,
      0x8ed1d10a67c86e8da10b0a359891b34838b3df7c12f3ae2086e0c2913dc,
      0x2464396b01be68830bdc1468a951580eb78ea2ff98c9ec5d3b9e0adf6eb,
      0x3b8bff09155618f62e824b83b881dfd51d8898dc0ca80d9be95a7329c16);
    f, u := Start(Q1, y);
    f, u := Window(Q1, y, f, u, 0, 0, 0, 1, 0x1, 0x1, 0x1,
      0x3b8bff09155618f62e824b83b881dfd51d8898dc0ca80d9be95a7329c16);
    f, u := Window(Q1, y, f, u, 0, 1, 1, 0, 0x5c474b80cb6bdb82336f06b82c49b52ec4fa2aae188147c000cdcd7b1dc,
      0x6e39ccc21236fe3b357a5db0e91733ba08097e9b6450221207cf7a05a38,
      0x139d0a05b59f4b6aa7810f3588f95ecebab2bf2fd89da0294f379105f08,
      0x49534b5edc8ec4a1c80ce18af21bd253594b367ce054e719e30b2eff3f4);
    f, u := Window(Q1, y, f, u, 0, 0, 0, 1, 0xc3fa0126db592fc42bebf0199fd8654996dfdc0df719c68b8da11a5a6a,
      0x4341958038915a4dc48b18acac0410d3f19a34ae8a4bf3849c214409ece,
      0x777f42738ca438a33d95ced8873a49766079e0b37997dbbd2490c355493,
      0xa118eb0f9d8184bab59e8e45df736d65fba3c64f4aa855bc8921ac18308);
  }

  lemma MorePowersQ1(y: int) returns (g: int, v: int, h: int, w: int)
    requires y == 0x3b8bff09155618f62e824b83b881dfd51d8898dc0ca80d9be95a7329c16
    ensures g == Q2 && Power(Q1, y, g, v) && h == 353 && w == 1 && Power(Q1, v, h, w)
    ensures (v - 1) * 0x57f4888591087bd9c3eb0c0f278ba4fddc26c6cce3b2e8944893fcd09ab % Q1 == 1
  {
    hide Power;
    g, v := Start(Q1, y);
    g, v := Window(Q1, y, g, v, 1, 1, 1, 0, 0x3b8bff09155618f62e824b83b881dfd51d8898dc0ca80d9be95a7329c16,
      0x633a246917fe3ff1f8c4ba0a1cfc32558222fe3893ef5ba7d07a8be8b9c,
      0x21e1e0d390ff92d4729e215650a2af7caf46e9c0f97f3bc6032651687f6,
      0x12171070ef17f799eed5f36d74ed64f52505c8538b1ba2148debee605a2);
    g, v := Window(Q1, y, g, v, 1, 0, 0, 0, 0x3546566fb06b43983c0c27c56028234d4476f40205a679f7e63143d4f74,
      0x3e0c0c9ee46018f4e77f0c6e9553c1e0b0271711c9d041c6d897f473eec,
      0x51f7a018d71954c2b3e743911e8c9a335ca60af63eeaf816a3554f99565,
      0x602f2cd6c47f61e85de71e9b3d8114fa1d8f2f5e8c8dee82c7ffd99edc0);
    g, v := Window(Q1, y, g, v, 0, 1, 1, 1, 0xfdf7f159ad9c2bb0184d0cfef5eb5b172df030882b7081bf0f33363b8c,
      0x6ae801e030840c685d50d3bf3f473196b060c73cbcc36751ae6bbea5568,
      0x2661eb5507d0354ea35a0f865d6feaa0f6346b10e119297c0239a2f075d,
      0xa48c08c226b45e1926afb665e5e5941b69abe54638d1f27df611c2bc014);
    g, v := Window(Q1, y, g, v, 1, 1, 0, 0, 0x3f821ab6acc8b357edc448270807c9904cb0d09feb24dab34297327c679,
      0x6de2c09d5852a00781c3fc24def85ce6b03a4a2c513bd5334c46eb6938f,
      0x9d5500375eb3eb9a57e63b1828d21e412a7068eef6a25970926b0cc745e,
      0x74ec66f3c8a955d84d3312d0e87a7a07aafe328ac09913653ce9c014a);
    g, v := Window(Q1, y, g, v, 0, 0, 1, 0, 0x2527f05dcdecd11e1b3dd27ca768237e12f73d4f54494391f4ed5de526b,
      0x5a702dd578eb49a5f6bb2e03011ad322709748ee2f74c01ee3f0504c408,
      0x7377547a559d20f424520207132597f4fe2853509382bcc8b604738f20d,
      0x290c076c1b638070b4be9a91420a12ccd31cd3a2cb0826653287c20d36c);
    g, v := Window(Q1, y, g, v, 1, 0, 1, 0, 0x12125e5e4a1683f3684c33e2180d0f870865471f39071dc0882e7bff3d4,
      0x201447727f2b7d4b01f3ef71fe1bbfde09524466327d20e628b1150a912,
      0x8b98b0d9c780d0a4c445c37f1209529910a31413ee8493e12816315a777,
      0x83c8a32a8f1c35fd99ff27cb4b7aa3e18afe64890a8a66c55079eb243cb);
    g, v := Window(Q1, y, g, v, 0, 1, 0, 0, 0x26c5b02cd11af8496b1b6868f652e95b827052c0c807097d587738758c2,
      0x1e57a8ecf5906fbd5934aa84725358e73d421ad6ae3716bddc674f6cf4a,
      0x3c538885ab60d7da17071c49c4ac1f7678e430fb621740c1c3ad31b2100,
      0x7e79e2dfecedb1339d88e6a0cd5cd9bbd99c85e3fe1cf8c915f54067e53);
    g, v := Window(Q1, y, g, v, 0, 1, 1, 1, 0x18e19241635583aeea03ff03b9d6412f7db22121af9c2ebb26d55b9e49d,
      0x7d5e3e85d2a208c51878a01f28401ec448492ead0009ed54f473341bb20,
      0x93876595041158f5b58c259830f20299382f25b055a33680a4b3cdce32d,
      0x3e86b394d2e2166842bd2f105760c1b43981937eb5599281076fc8d6cb9);
    g, v := Window(Q1, y, g, v, 0, 1, 1, 1, 0xa8733251e8b00eb3a45b063ebb3115e16997a56827afa7bbed3e8c38a67,
      0x579c7642e59d0829a1682650afc10ca633078338d742425fbcae4b4fb8d,
      0x333d977c7c0825a538697e267702e8ff075ec1677e4c9e3d88a0f9ea515,
      0xaac23ee8ac5f9680e1dab8e9e692830cc1657e6c416b9b6139ed84fdf36);
    g, v := Window(Q1, y, g, v, 1, 0, 1, 1, 0x4873f341d5119c15716962a093f875e35c87165f53a839ffbb31aac16d6,
      0x58dd4edaf529368444c022a1b9d2a1119cbd3b6df30db674135c4aa1c9c,
      0xab7e93e9aef49db7afa3a9419c834c37bc563e095588b6aa57837a05f92,
      0x126065c0f3a283c2922070d5c5410fded0105343da493ec95397c3962e0);
    g, v := Window(Q1, y, g, v, 1, 0, 0, 0, 0x4e95f8fade50ddc8c0ba3ba2191016234b4576815c0265458de0b963378,
      0x764a9f1eea0fef127109bf1f2ee3902eee8fc1fce244a40d4168cf997d3,
      0x84246aa975853d4214e2b8b90df207c98b8b619f4e913d439a3fa7feb84,
      0x1ba7ba9e23faad2c7ef84441e15f8b6e378e2332c7bad2f9de3a542a2ac);
    g, v := Window(Q1, y, g, v, 0, 0, 0, 1, 0x24f8bed229eaf40259d215c73eecf360224ca5a040c8800a9b232e17acf,
      0x2b08ebe05d125f414a7b3c4085ade7aeda75ca7fafd1956ca62e1dce016,
      0x9b2193d2cfa6a260b02a69a7c595933c4ad931cf168a07dd8ff39940f31,
      0x61d25452b8209f8b723c6c900b3e48d44bf38ab778bbd851c921054e974);
    g, v := Window(Q1, y, g, v, 0, 1, 0, 1, 0x147465d6410915aeccbfb03ccaf1af78fbd5049156d89db1516852f2fd6,
      0x1cfca6853ffb6234ff6b1f7de1abbb5f75f557f5002247556016fe049f,
      0x68778836d7a2911999db152dcaf3da278a4cf4d97e32c167a87b9cf196d,
      0x5d1f254c1868bc8b03eee33f1d49d6f1d74da878a32b14e4acf5216171f);
    g, v := Window(Q1, y, g, v, 1, 0, 1, 0, 0x75c49ec2931538ba3886af61f7410049972c1a9acb3d20ab1cc19646e0a,
      0x680ffa94678cf1e1c685af561b5d56cf009cc6cc41b0367a5b29071f,
      0x4aa9e18c4c2291f5cfbb169a900910fbc01f9f7e493010641c5d02d04d4,
      0x14a8aff21be9ebe4978ebb5144cde3d9e33898c5a81c7e0960c7837bb3a);
    g, v := Window(Q1, y, g, v, 0, 0, 0, 1, 0x5aa982556f7408809d4a93df18436a94244d3ccbf6fea32c1d78bba77f7,
      0x438727f70c91c24d6e98761ed9c1a199ed15973a213cf53e74df9c78f63,
      0x900f802d98d760e9552bea7f014c981728554c217e77ad5326d93559a15,
      0x400878a4410a0fbebb6db6b441721841c3d8cef89444570653ebe9ab3b);
    g, v := Window(Q1, y, g, v, 0, 1, 1, 1, 0x1e0e63113bc1034d8310c1ac1ef36745c98b058542f5def61cd661f0174,
      0x402ea589af988a745f9692ddea48ae3fd818a534a553936b91bc5ac59f3,
      0x89e32f5b490e030a5685564e13b171520998dfae1870b2ee8c228ab9fb7,
      0x20d899e60dd2e8670a8f8eae2fccbcb1584b465ad43b4678c80ac331a6e);
    g, v := Window(Q1, y, g, v, 1, 0, 0, 1, 0x8f6d9c639e8872c8501b7f59b5e24e5da46d87829633037eb198bb72306,
      0x20016f8050ef42c860261df8f155f55f4f77b935b7c5ccbf41f4ab011e6,
      0x83951569fb1e48a5933e329547a68d04dfcf631ffce9bcc6651a6e7fc48,
      0x918d20fa2c394142b6a1e19eab7b913d48a65daed0f033c023a69fae7ee);
    g, v := Window(Q1, y, g, v, 0, 0, 1, 1, 0xab4401d1e1cbd98de07d169c170adb69807a58f886b81342668786bcb7f,
      0x4a5df1b6ca67ba8e780e2928def598e4ab520c157eab5000a03e4f69c05,
      0x3f6a89c06efcb505da07df25b71ac9f815cd9fada5403b443a3fb33c306,
      0x100137ba054d4431d31cbd2d4f761dd913e03402db1527bdebcaca2448f);
    g, v := Window(Q1, y, g, v, 0, 1, 1, 1, 0x803fdddef034cd45ba4a6830f1a047801b856e5554e1a208495f35ba7da,
      0x1f7a6ae2bb7a2e2fa4bf9292d1c49316a837e165f5a0b1abaa6db00507d,
      0x726085a83a17791854f21f075e55a4a0a8c17915a069ff327126b998cde,
      0x4905db8e31f53f52665a6bc47571ae6453f430a6749b8168246c4b4b015);
    g, v := Window(Q1, y, g, v, 1, 0, 0, 0, 0x16d53dc28c8c60afbed07c488f3026a0853df73cd0444c5f575878653d7,
      0xa5aafe2679b7066067f75e4e10263c95b66aa80f36898b4cbdfa8e75d91,
      0x1394c240563b8a346aa0de03beef2bb1b146f00ebc63bef02b974998810,
      0xa793136f8dc910b3c8ad8ea9eb652d18611e48361c8a2aaf72fe1fa3bac);
    g, v := Window(Q1, y, g, v, 0, 1, 1, 1, 0x496021c11e142abf51f1d7cb5652e00b16c1b92b85cc2250b865862a163,
      0x877b73c1544a8c587c24c1775ca1b78adc1ace99b914181f7221e586093,
      0x44f154512a21a5e3b2b2cea9890bb2de92efe6d7975e05c18cf44d095ad,
      0x920e0a937056cd5d463c14401c51a110139fe664e1be198487da42cd4b1);
    g, v := Window(Q1, y, g, v, 0, 0, 1, 1, 0x40a70c429d23a14292b49d6642416e4e1c89bd867918778f58c928f4db5,
      0x9e9c70ba52002bd22eeff1dd2cede46715873d59c5c9e036b6c02ea38f3,
      0x809355cdce41a7b684c9c039574036dc8e380d5b4a9ee2bac552d41cec2,
      0x34fcf9e079c426b8c643e1824d55d7cfde59ca71109d30588f9d612cddc);
    g, v := Window(Q1, y, g, v, 1, 0, 0, 1, 0x242eafc101c00a4400d1bf8a2e07571ac03c39053a6ba97035df353203,
      0x31b3084cf1919accaef172eb0bca2126a4aeffa7c481c1e36bc4189dd8b,
      0x54681e45cee950da671464e0b49395cc40917c8bfce0d1e2646a20b1901,
      0x8d3d606cdaf312db42a045e253de311db3cbb444c6d6ec725f55a0ef05);
    g, v := Window(Q1, y, g, v, 0, 1, 0, 1, 0xa12eaebc713a5063b720ad25f9b5dce49b10d1055680e2ea8d665249cab,
      0xab77733a8b327a324e1c43dd43b6fe77d6309616101ec41ea29e0001d30,
      0xf9d6e761b1e49b9b86a45008720f975a769fba4edf9061f139a2a4cc1a,
      0xc950d72787cdb4d5e7bcd3a2e823ff168f2ded504856db76241c682bdc);
    g, v := Window(Q1, y, g, v, 1, 0, 1, 1, 0xf3055f3b9a4d92c60dcbb34cbb70a339239545c71711f87490e9c1b070,
      0x37c8a63275934e52eb4f4c438393a24366fb21c598fdac37443839fc0f9,
      0x3bb21646919b2fb940ba340c7cb356990183db8fad46277a952753d0d9b,
      0x2a28f3ff7a2298b7359bedb06f1bbb1874a6485b0b50ffa5552f3778b86);
    g, v := Window(Q1, y, g, v, 0, 0, 1, 0, 0x7177ab2485fd67bf531174efa1adf378c3032aee5e13f3008e9433cae09,
      0xa54cf1cc8054dd0923ddce94ca3b49bdf13fd78097a27103e3cff543703,
      0x2b36d599e86487906aad27698f459fcc838188bc43b045d9c345e02a50b,
      0x9a5c3e7676063b6aa70e3303c8ae461d349d98c47794fb67fdbad81b576);
    g, v := Window(Q1, y, g, v, 0, 0, 1, 1, 0x9c8a82afdd0c74ffe45e3b81f3f18d8f9736c2c4553fa9ac502acbc30dc,
      0x2fde1e0c2f74345c6e55efabb6ac7b4c45a2384e38b405a4ac38786306b,
      0x4f9b60fddcc9169bb10ec6f7a0504ac4ed9a3716e482bd91f8f1d9d586c,
      0x8e9d539b151d4557878fe86c24586550eb327d5ac1e32023dc8b9bba9e9);
    g, v := Window(Q1, y, g, v, 1, 1, 1, 0, 0xd8412da8170025fc71fe944ef765b93dcb3fbc52e8e1b1c18615c50a78,
      0x2b95cc07c75a92da1982cddc86393428037ed1780815ed647ec992719fe,
      0x1decf65c743a3b700b87bf61d2318c54ac93024d08b89214c93badc351d,
      0x2b763e89dd4d5e0a9a670c25b9873174087d5ef1f3560a2287e45b01aa8);
    g, v := Window(Q1, y, g, v, 0, 0, 0, 1, 0x9dc72a042dc94cd7ca387f44af62dca350d2c5a1d4aa4a6d263a6f893d4,
      0x337ffa056d162a2d0dcfded3561d1b47deb7d165b244d4102bbe2ee69d4,
      0xa253642613e27fd6b05a7165aec3209b748b665e42142ef6d3ec66f731c,
      0x13d9dc1e5009af5c4c2541515b87c068b913c42d9a7644ce63ffe960964);
    h, w := Start(Q1, v);
    h, w := Window(Q1, v, h, w, 0, 0, 0, 1, 0x1, 0x1, 0x1,
      0x13d9dc1e5009af5c4c2541515b87c068b913c42d9a7644ce63ffe960964);
    h, w := Window(Q1, v, h, w, 0, 1, 1, 0, 0x2572760ca51df43d4d5bd713dc6b8e7a8b09f9681f21960a8072a319ebf,
      0x3a5adc0270a1579c057b90d909d269d1f5e50e82e0d275380727441c789,
      0x7bc0149a9871936add4105d694a05e266b5f0c79634532d59f3ca5558a4,
      0x67f02c1c6aaedf6f0ea9de00aaaa87af708006a0070524c58b9200d890c);
    h, w := Window(Q1, v, h, w, 0, 0, 0, 1, 0x9b9ff33ea51c066baa24ea219a3be258a3d64fcdfb6546f8e44f0a8da90,
      0x59fd720abef5a6f7fbf35322cee3379c47e94e091aada181b69c8e92965,
      0x2e58023576166b1c9e76f3c2cd084d6ae306d9bcb0f91aded38300392f, 0x1);
  }

  lemma PrimeQ1()
    ensures IsPrime(Q1)
  {
    hide Power;
    PrimeQ2();
    Prime353();
    var e, y, f, u := PowersQ1();
    var g, v, h, w := MorePowersQ1(y);
    TwoPrimes(Q1, Q2, 353, 2, e, y, u, v, 0xa35a14fb1452ddd0fca6eef50ac9bd9a369cab894104fc366d4fa595e38,
              0x57f4888591087bd9c3eb0c0f278ba4fddc26c6cce3b2e8944893fcd09ab);
  }

  lemma HalfwayToRoot() returns (e: int, x: int)
    ensures e == 0x1fffffffffffffffffffffffffffffff
    ensures x == 0x4a7092a9de3e8c50291cf15f0358e81d7698548c905decbf21a7b3dc53715ea3 && Power(P, 2, e, x)
  {
    hide Power;
    e, x := Start(P, 2);
    e, x := Window(P, 2, e, x, 0, 0, 0, 1, 0x1, 0x1, 0x1, 0x2);
    e, x := Window(P, 2, e, x, 1, 1, 1, 1, 0x8, 0x80, 0x8000, 0x80000000);
    e, x := Window(P, 2, e, x, 1, 1, 1, 1, 0x8000000000000000, 0x80000000000000000000000000000000, 0x13, 0x2d2);
    e, x := Window(P, 2, e, x, 1, 1, 1, 1, 0xfe888, 0x1fa264d9080, 0x7d176e0b4b0cc7d208000,
      0x7a3fc737f93f58db10bf314a30b1e9824080000000);
    e, x := Window(P, 2, e, x, 1, 1, 1, 1, 0xb8cd5e7255890d0e0d907986602bddc9c67ba97196e7941267ca3056254b232,
      0x1f0dfe590cd9d85bc54f6df96a681c2f5d07c94c7b4a77dc54a7229c1723133a,
      0x7f7e97cd178ef6c053d43ee4017c1d92ddc1ae18350ff99ab05d59d28f491555,
      0xde3d0ec62b72d4aeb36cbf321895273c2f8448d08a0b497109c12f489b2c1f5);
    e, x := Window(P, 2, e, x, 1, 1, 1, 1, 0x5c5b021c025321741192954188216b1154e01f00d9f83522770dd2554e78c18d,
      0x1b776bbea07930d25162ad35f34a44e31ad5e75309fb8e7a6274fca9b38b5064,
      0x467038a8aad2effd9b3ed28402ab6f4ff081bc0947e8f8e3b63278c2ee40ccd5,
      0x423ff9abcd6e0ac2cf971a6f0233cadea24c49c564bb59aeea815d78b0bdff17);
    e, x := Window(P, 2, e, x, 1, 1, 1, 1, 0x524a02b8dc468def7eb7e95ad469eee1ccab3d521c3c4986984e845dbcf311ac,
      0x5c221fac61c0d6ffe66104d19e84e07208db61a97320b6960d900864519e3877,
      0x1fbe3b0fb70b360cdf1e8c696eca5d7fd5baccb35fb8479131e4ab98c2ef2538,
      0x7b87c61a21bd1607de6d79162713dc578522256259be972e711046f84f99ef74);
    e, x := Window(P, 2, e, x, 1, 1, 1, 1, 0x12b24d6c18eb768b7724f3f7d3dd5b18e34a5a3e71ba3dc0756d930bacfe0acd,
      0x36accf8464cc55eb112dfe4ce8a197c0a0e7dd3a65cc0db42d86974422d51bcf,
      0x331d6459ffbff29a0bcfaf627910978d4b25d0aa6998888324d6c00a3117477,
      0x1d6a3e0e33e7d36e6f1956bbcfc0fb038ff048f6e430c94db515f9aeae98564);
    e, x := Window(P, 2, e, x, 1, 1, 1, 1, 0x4599cc19f91ab66ae385744bcbd7468eab1d8bca124390c56de62e1096cb7846,
      0x539ee148b32774f7f3aaeca65f110118df5ca04f77e1232fded8d83cce9a9b08,
      0x3b5822765de225e133be342f95c09f0e7914206ef4a0d297740ccf3336a0bcb5,
      0x4544a25fe11230f1ac5e2c3229e3cb05acd1b509957074665eb3ae801b4d6511);
    e, x := Window(P, 2, e, x, 1, 1, 1, 1, 0x31e303467df86d50e8e12275cc3f33332f4f99ad3ef3b38faa2245031dd105d,
      0x450172c0ac3a455a330d82fc1fc4e86d23d66bf206db8ee551b8855f0760813f,
      0x51ca4e3284e1c9964e809cc55b3211c0fc431bc20ee5e321d22353c59b07b6d,
      0x63eb51ea169cde66974dad19de73cf0d5fc158c29c4f1bfc548adc741b397dec);
    e, x := Window(P, 2, e, x, 1, 1, 1, 1, 0x9f32ad3cb4e7bbed9f68a88befe5e1772862f90a89d7f93ddcbd4f81f8a26cf,
      0x28d053961137c98ea810238b76355510820e9c5668a70f4c33c02649f16a065,
      0x5a537fe0cb35b3bea7db382afebbaae6c42fc4dfc94025db7f483a979476d6af,
      0x1c2261269bde5d8a23e88bdcfa0efa5f91c60951386a6441dfa38e5f6c500bc3);
    e, x := Window(P, 2, e, x, 1, 1, 1, 1, 0x53e16d58acb9b712cd3fd2a6217e2f4505df411ee8ca807fbc2eee7a24f7f72c,
      0x65fd3f4e16ec12888efb70cc8b28a29273846a5da1823ce24525c3af1a0e5928,
      0x54b45c911bd0aa55f16b194fdd80e3065ac19b2c1488bbbd4f837ab614121ca6,
      0x45e788cb47435e1b6fc2051646cbe0eb6024b4dc2885f89bed089a226205a5b8);
    e, x := Window(P, 2, e, x, 1, 1, 1, 1, 0x6788c579f377d5eb202f037034d58d67c9c46b96360332d744b9d9fc19984635,
      0x60302490d899f5f2e9e02601a667c42b7d6d8b1c905afb24b5b1f35ed9c4d703,
      0x7e7fa578f05b7f51a80b82d5df335dba51eb6a9f6dc4258a8bbcc9caaaf8369a,
      0x37bb5bbcc46568414878c06702bb06e01dfef02225d056072546c7c8f2231075);
    e, x := Window(P, 2, e, x, 1, 1, 1, 1, 0x410e5be1ceec75389eac57fe3b8cf3e2ec40bb5a87dd61b95b58669638e4b647,
      0x639782956b2d03c3b50ee26f49583a17c209caff6f283b5f308dbc8fa243804d,
      0x4a2f51afd3bf227ecc6f11c09d42adce4fc162482eb021d85953f1bda6a07d65,
      0x62b27de316c873c65664c140ea184f417a463bb2f2bd349003527247adeca31e);
    e, x := Window(P, 2, e, x, 1, 1, 1, 1, 0x1f187ccbd81c70a97ea3db6abe43172065bb4c67dadaec056830a01d0df9edbe,
      0x5db09e4076e9cef49658f729d857859216d074616635cbcf8f178d0b5c23b74e,
      0x304d384d2f9dbc378a27d19919a4a9514b56d6ae3ca9c0a001b34d10cc9285ad,
      0x714520e2ad0d3064e4648a0fa8e7213495c02233aa2f5ffb84c4edbcdc966f4f);
    e, x := Window(P, 2, e, x, 1, 1, 1, 1, 0x7d6149f0d55f4be6d972b2673e6f1dedf743b811a5f0fbecf4e123fa2cde07c,
      0x1863621ef9cc507e2bc8b5340dcdc52c6b49032850bd067731b407940c6c62c6,
      0x322c8f19542013330297c68b0c40609919693fac1dacfb57831868a326baad10,
      0x3e9755f029ad926c8f281686ec26cd545a5851ed269a8d0eb2dc3fff1d3fe3db);
    e, x := Window(P, 2, e, x, 1, 1, 1, 1, 0x5a259bd002319b926716cfc81dbb8232bc7b48bce62b4db7bba2069862b3fc20,
      0x419f3b1a98f90c89d23f8327b91b94acb7c20ec1b1840b06daf7e961f6ff7df9,
      0x29bd1bc5fb701b6202102431303b2b4a8a3a2af6213119638e0b454b035a3342,
      0x70ab5ea2da24b64d4d7191eefbe84cbe45d0ab9628454f2495915384beb77a15);
    e, x := Window(P, 2, e, x, 1, 1, 1, 1, 0x66522a754d891bbeca560372d45e6a7f7491d8062a8e9ac7dc3d2017c2c3a6a1,
      0x5e009653e507c594898678ae5d0037407ed5bf4610b44a725d19675bef3d6c13,
      0x17d33b601b5f68bc78e9cc60b751ad46bfa468fec5052828bd389f612a835c7c,
      0x7e5441f05138612df3b7215ae4b97eda016c91f96e896a3f2385973c9790383a);
    e, x := Window(P, 2, e, x, 1, 1, 1, 1, 0x4757007b8c414bff9b42fc0985e1bec31ecc471943fbef18e4564fe3c109e2a3,
      0x45224608a5add3adaba078f9a3888da0ba8914ba5c15a934580ebdfc060bf140,
      0x4bbd6f63fb19d327092a0c86654245a62e7b60e51f22f60e3679616e8e08bd40,
      0x484c304b2cfe32810b6bef75002edd6a4bd07a326483a15477d83b979306ab07);
    e, x := Window(P, 2, e, x, 1, 1, 1, 1, 0xe7c4616bd8c84041b2efc968940b19c8396fab61ab16d4a02263f8cddb6c9f9,
      0x50238158174c551fb0a070b5ae8c248e3ec878e2f75cfb20010e28c37ad2ab1,
      0x3049055d5aa594440ae71a1dda29615021ea5b26ed510d0a89bbf3f6d04167aa,
      0x1344f1f380acdc6c84ccbdc91c4f1e3c3cf60dcb5c7bcea68c6559c0624fcda);
    e, x := Window(P, 2, e, x, 1, 1, 1, 1, 0x605bf1a17ffedc5a22f3aa4b542bafcee95998eff8cde3bd064f7f8ea935eeae,
      0x6da40bad5859c0b0f7e0d217a1555a70a40310e610ea052dca695e6e826223bc,
      0x2de3c13da94fb24d31a7291fa97c7ea60976e7ba7af24d40fd7f16638635ec9e,
      0x60c27697f559f88c2f8b1f2db010c5cab89e19c30795269440b599e1a9e3b23c);
    e, x := Window(P, 2, e, x, 1, 1, 1, 1, 0x4c28358c0a63c47ade38ef0754d5cfb4782112a6824907b555649228765ce6d8,
      0x26886446a5c1070536bb80608b9df6dfd9bf5ae9748aba37d735fcc1e1fa7c72,
      0x6c4bf7949a61d793ad122cc1d0b9d1d92b2ceb7e29b99e08235ceb5b56b6fcd8,
      0x4b8d6f110d9bd3e9742dd96bb3945266df4b29ebf92e31d23561913dce9675d3);
    e, x := Window(P, 2, e, x, 1, 1, 1, 1, 0x1db2afb7ff29a9b84efa4bbb79825c3cba12e2b483b4928f57b9635bbc344e3,
      0x445eaa228303d740c1f0c8111aa1a43da17464872ee11c85c8b7263f67cbfcf8,
      0x1690bb51b13f6e0dee0cb31d8e2540ae46099b2f5aa8fe24a34dc8e0880df274,
      0x1648827ae6cf5096bf3df57e0e218860fc1e3850c1496ae29fa29c0390f88836);
    e, x := Window(P, 2, e, x, 1, 1, 1, 1, 0x36e4fef770e0ebb0eefbd1400e5cee2392e09986734f273cc909f7cb82868b3a,
      0x111baef8ecf7e940001fd734aaa12dc469820baec835b9fcc155b15c368e2e6e,
      0x3ec1fb89a68687237b23de07148750d8c2357676a16b57ea5255224a758f266f,
      0x67cad1c7d7c7fd36134bcfa0e615c08130a84be05941d90990d2dbd8d36c49c8);
    e, x := Window(P, 2, e, x, 1, 1, 1, 1, 0x7b0e932db621b2ff0c9a1d36caa4af6b92b918fc66e22718060a37abd413c932,
      0x2abb4c95321b78db0dfd5768e49f7c21359a05f26807c5df6abbf8b7e0cc846b,
      0x6f97c8c769da1c291f633cd37e817b567804f88a60217141e7e048779597a578,
      0x449c2f5239333dd904083b3ac10d9cbf3f1b688ce7060fe69a45633a5193b021);
    e, x := Window(P, 2, e, x, 1, 1, 1, 1, 0x4d250478710852639c536ca84cf21977842f0f49fb02bca5bf01e92c7055d673,
      0x4b1497e95da51643fc9724f875c64ed1c77a2a0eb373cdab35e98c303b129df4,
      0x78577c78225b8c3a6338b0baf2e4e7badd6e66fd365d7950ce0a6f9be14ac8fe,
      0x3738a60ebe123e5f8825254430aebeec235e0a6ab1f8118555ca73da288f542f);
    e, x := Window(P, 2, e, x, 1, 1, 1, 1, 0x62c079c9d9fc47013ce6740e285d14a86da6c77d2d9f1eacb6e1ea925b54d6a3,
      0x6116698f2fbdc0d9ffdd8b2145aa1560d54bc52fffc32bf29d4bc7f48dba18ba,
      0x7f5cfe517161e30f81ee6ebdd0169eadd8c9b3642805b9e904e8ba87ac2edcb9,
      0x1b63eae1c1031c9387ed8d5b1b95dd0c0969e7108572b2e6ab5733340b5ca75f);
    e, x := Window(P, 2, e, x, 1, 1, 1, 1, 0x7ccf23c9ca519de2504f9d475d91f147e40d206d164cb9d5439cf8710ca09ca8,
      0x3bf660e9e465d9b4d35e5f5951b0ddf7f8990885004f6095e6b7737be653ed6d,
      0x1338488add0af95c404fa0402113ae43243ec47ceb4d8adbd17772198d644a6e,
      0xfd7b2f998a56543be37c177e850888f82727268000fe49954a112390864f7b9);
    e, x := Window(P, 2, e, x, 1, 1, 1, 1, 0x6e15686488df199392a01b4a8ac94875e665d622ede0874e2eb42673a99827e4,
      0x4654c072c17c2aadd95251b2543f6eee8ae3c8b5c8758ecddc0a4e682a7108f4,
      0x305ff504f38c9dead5fea2a87f8855ed24f61c46d6ad44ed8ddb294e279c748f,
      0x7f5154b89a9793334592de6b912acc24bc8fb0ba4e65952093cba23e1d1a1762);
    e, x := Window(P, 2, e, x, 1, 1, 1, 1, 0x418626877ad3f0c2f37fbce1aa31c2f60d8cfed27a577daf6a1dcb317bc8b9b,
      0x6a1de49a2f911c03abd5b7a5bb1452533e8dccd17acb0e45aa98e50d69b857c,
      0x7d72c109d65f59d607e1d4264817fd5647892449fc15e397d10acbbcb8077118,
      0x752379dde0daefd9fbf695281c26f66b233090acbd076280e9605188d008cd8d);
    e, x := Window(P, 2, e, x, 1, 1, 1, 1, 0x33d382ea3fef1cb8f59e816f31103782239b9e4d156a454347006d6819abe990,
      0x61c35c85fe9fbc3c72f8e6fc6b69b01d3b7c504b3df986e8a4658b4f999a353f,
      0x7bab852e8224e61b30fffd9fcaa90920859d66e68c0f4d18b9683662e7255a3e,
      0x8f07602cd009e6ccabc1a25642a7dcd28374c01dd2e197131136915896c8a46);
    e, x := Window(P, 2, e, x, 1, 1, 1, 1, 0x4255d86fbc10253a88961173400b45a2997840c2d8f2e42e0b563cb1f16a75a1,
      0x2e6f1f4a2e8f5b34aa3b7228f09e1766a4808c9410519959b8de91355e1e0aec,
      0x2718c571cbd695d3b44154454ffe04ef815e26c01aa3938c68814ba2ef3fc5c7,
      0x4a7092a9de3e8c50291cf15f0358e81d7698548c905decbf21a7b3dc53715ea3);
  }

  /** `I` is the power of two that the SDKs compute for it. */
  lemma RootOfMinusOne()
    ensures Power(P, 2, (P - 1) / 4, I) && Congruent(I * I, -1, P)
  {
    hide Power;
    var e, x := HalfwayToRoot();
    e, x := Window(P, 2, e, x, 1, 1, 1, 1, 0x19112028e6a666ecea034c65f668804ddc0bb26843c958e843d5829c00283cc2,
      0x6fa832d70dc171f98a99ab0c0ae5c98fb58d4dffe0e132b63c6974141937d3a0,
      0x3b9cc3524e6bdb8580d278d115d042eaa7c19b2145a23a1197eb5466c460af7b,
      0x9420d4302987a6d9df5a9828552135e8b06145acef936fa0ee45505f81b09b0);
    e, x := Window(P, 2, e, x, 1, 1, 1, 1, 0xfb674c11d5165ad50ad3f818e3b6e03122f6c55b38d0c24b17437393f5294e7,
      0x41364f9981abaf7ed0cf4072d21de43ed919ce6b91f7ba87de1062a5bf9326cc,
      0x6e8b443ee73f81760bba50fb8987a46b178cc0f59a520968b5c355493f08eb1f,
      0x44d61060e5a745fb450e39d473ed51a80622a81e57d908d7bc01aaca6e475c1b);
    e, x := Window(P, 2, e, x, 1, 1, 1, 1, 0x677eb04e9118fd8f89fc608b94681b76569eb188e10d8e4dd67ae287f3397b36,
      0x58aba42e4ff91d81c01a58d4f77cd6fd004d7b444491f39399b41b1334e871ec,
      0x49e18973ed40d9c4baee4cbd0880ad1187fdbbf6c75548ef31f32fdf893027b4,
      0x2704c3e10709d430d475e31db14a20806722f9d1ce4ef6d074467e95893ea801);
    e, x := Window(P, 2, e, x, 1, 1, 1, 1, 0x1cfd8f5e73a8137e72a282b6e51bd32d13941502179c6021e60b98daef64acab,
      0x3d83e64e5f66f0a7120cd19cc6bcc5e6d8ecfdbe6146b367f4404e8775565829,
      0x2cb0dcdf1750c74a72c61d2c4aee2c31267a745b38bb3b7abb76b16eae1c3f2b,
      0x140e2289d512d6d81eeb317076f7d13fa3d8b4514a126bfe8fb07a824c91f6f8);
    e, x := Window(P, 2, e, x, 1, 1, 1, 1, 0x453d5a4bde793099af854346b73877d52e3ba01ea494223118545560bef47c29,
      0x3012e63b6c18b7c3693e92e9c3106233077b5e5441117fd5e86880466bee868,
      0x1fd571ebc05fcae1e68fa278f24c5ac839dbf35344df44f90e67d83989dc71f3,
      0x7f34c30f9811bde34280bc47bd61af35613f0c620ceec536039a9aaed9a1e2e9);
    e, x := Window(P, 2, e, x, 1, 1, 1, 1, 0x59a50c8ac92d6c1b1d74ad1042757f7876ede60b4dcc07eeef43bb4de284a6c5,
      0x65a33817ede08fc19cc044ef64107c7e45d457f2b921dcbe75f3805ba787fe84,
      0x3d34c25bef575f5ec89a1c31afa52819670eddeb68d70039cf57fb0b07ee8470,
      0x4f0dc24d1280e22b5677e07e2e1692d65b38f34c0a3a455ed74391ad158804e9);
    e, x := Window(P, 2, e, x, 1, 1, 1, 1, 0x544b387e8b0bf858b63ba7d75d975896c092030aab333193987ff852c9ff0844,
      0x1ebbd07684972aad18e11c8277bfd2a949e5d93766074f6e5cef38d06a75d9f4,
      0xc0f1634d8374d86a38d952f4b190e9be7f363e76149c1cdf118fa7beb5f2a21,
      0x7a6631b5f9818a68739c79c8612a2b317d6af2ada13adcf65d975a2d6d2ad627);
    e, x := Window(P, 2, e, x, 1, 1, 1, 1, 0x301e9858b806dbef9859d3de521d70626ec2e9544f97179d507520c914a4b48d,
      0xf2f6a58dd46d615b52e1a27f23fc57c53d0882b735d7314e8207e4cbdf363fd,
      0x2f9f4ca0ebdef08e4b2c1b47eb8c3e5d39e8531eeed698cff3777b231ec49036,
      0x33895213d1fbf607c00497f8917082690d5273fa4efeae50f1e22e13fe56b49c);
    e, x := Window(P, 2, e, x, 1, 1, 1, 1, 0x148d28ac5b29f124e1a419997ef15f5063cd09d6f9264b42a11fe0e953b5339b,
      0x3a57b027d1608f19b2d6e16b321802f37b9f3f91f6de950ff8599b550ce841c9,
      0x5bec4671395f5c6d85b58812ee657cfe392ef79f082e5478a5233d2c326f28f1,
      0x3ac4cdd312d5cbea8b140f7a382ccb7ac30a7d6bcc8bbc4f968160021d6be731);
    e, x := Window(P, 2, e, x, 1, 1, 1, 1, 0x7ae707646eb04fc63bbfc4d75c67d8f1e3651e412773190df288fcc6455a98cd,
      0xfc82279aabcd068314b4875883a19654e0cb4f8bdadafa7b711fd9cd445cf8b,
      0x2f3b44dea79ce22969e28248b9627f8f91e77d11704a21f5bd9aa16c283d5c6d,
      0x3dc2fcec5787389c670713cb5c306627978b8b27aa31a5483214499f37b1b75b);
    e, x := Window(P, 2, e, x, 1, 1, 1, 1, 0x4ea93f9ba68c0bba678eec3e96fe46fb7df781cbba81086aa0c538eb58ce32d4,
      0x7fef81a7d01be5db858ac1e0c8d5efc4ecd03a62af63472a8cd83a1f81be6ed0,
      0x5fdd5e93f03a3b9bcbfbbe91d05a9502ca36792712cac57d45781211c8d70173,
      0x22acf76b3be7a6899e078d568e1e78bf270d0142ac99d03a7b61b976edcced4b);
    e, x := Window(P, 2, e, x, 1, 1, 1, 1, 0x365a1725c5975c06d6054245bba5080caf9e741df1be36a2c9c484bb07e33eb,
      0x167eb50db4312cbccb615f9f22c396946da5645d8d40065bc39431fb4bb2646c,
      0x75b5965ba4a6f883e9c4b335ccbde1ca343ee2109612c2df1fb50465aaf123e8,
      0x1f038713c67d2518bcc84692fe012decb92b42b7926d186e422a34dc39eede93);
    e, x := Window(P, 2, e, x, 1, 1, 1, 1, 0xd68ede480676ed7b444ee1dd54f5f6d8d1b6c95e7a34a2f0a017a8e62257f94,
      0x24593c1ede8c9cebc7bde5f51882f592f3f9fe654fad85578b2ffb0ed50975a8,
      0xdb23a9a95203b8ebb3e79ff8fcb4a85c01f68e00f5f51dfc2b7ceb7f8a4ebca,
      0x1837a6306707fe8664adcd9044f21bfac2d28b059f26210909f9dd1deaae3ab);
    e, x := Window(P, 2, e, x, 1, 1, 1, 1, 0x783184d066b2a94b29656756217afda85a9750736bc5ea19ed7533b4ec8c7c79,
      0x5b7fdc14c006017b416da389d0201482bbd63a94731ec0572f8c9789ff56b4e7,
      0x7649359da7edf0f22fe305eb2964cf8a5365ec1e312cbca59d451d7c106f36c9,
      0x41d10fb133fdc1f2125655bb0b3445b2530fc558333458971572934bcbca0338);
    e, x := Window(P, 2, e, x, 1, 1, 1, 1, 0xe6edbaa58d2a38905a875d9f3083976bc15d323675d522adb4485c4ff31e51e,
      0x1c6b1de7d692a61dd9ea3bb2c7f5afdf0e7f0f2d4121cd69909090ff7691732a,
      0x351cabb514e79da8af43f2299f9d85776fe1751c9d128c0bb89dcc83c3673bc2,
      0x51d223e61ac4eb6998d9771dc72c137e771bbfa62066c3693d01bc4af72df030);
    e, x := Window(P, 2, e, x, 1, 1, 1, 1, 0x5a98250d9544880a23d26a5dd2d5b8d77c3d8b656a12d3833856412238b0ee16,
      0x4357ed4a9250b4706959c7a5f7861c03d9c0892545c2be1841a72cca33181026,
      0x6acf703ef6f0238480649afbef9dbd593f396d92092d7c0e713f71033fec6d75,
      0x359372836d876d8cf11dcad4311505f91463ff7e3760328a11dfdbd491a9f52c);
    e, x := Window(P, 2, e, x, 1, 1, 1, 1, 0x627a8fafe107c3e453ae6e8a686363cc2d7435f384e5013afe89027f0b24e376,
      0x76fdb306a2b03a98b631b569ff0a668731dab5fd49c13f1de50b3b021a2e2fb6,
      0x46e144311c54583630c130ba66d4651d16e9e0db7a918eb9e7b7144877c64198,
      0x710082c4fbeeaec768b038f494b75ab8441daad98ce5d0be69893a78b35c2bd1);
    e, x := Window(P, 2, e, x, 1, 1, 1, 1, 0x6bca1a076b9e31319e5dbcf4e6686405641464d2c500127141feeaefa048f6f4,
      0x501800f54892d55acce34cad3ea1ecd34ad0d93a146792b88493f0f7877d17a2,
      0x559e220cfeed955813fda85426acc15a6682fc8a8e4174dc749b7a4fef8d14ab,
      0x648c665b35748c2785c9fbb33cd925375ee04d74845fa2923ce309776edc5500);
    e, x := Window(P, 2, e, x, 1, 1, 1, 1, 0x5f65072209ef98970ccfaeb6803ac24a4e619c630680c598217b9f523e30b216,
      0x6efc714204f46ad9d469f6d7584edc09d0a44a3fde49f7ecfd2c4e134bd30af8,
      0x4708fd1d49a240e8047cca68e2b902d9528690d5b30a54ae98ef0810e3d8078d,
      0x1871c6e332a5196c95e2e5ece5202f0e3e487500e26ea89098ad6bb20815283f);
    e, x := Window(P, 2, e, x, 1, 1, 1, 1, 0xc2e403618925f6716b62058bf65f56ba5c250b4bfa9c33e606117002a009c64,
      0x56a07718b3fd3192ac8020bbd4b54f4df397d79ef160a42155ada0e4fa5a712f,
      0x453244418555930b8eded0a348cc6bd25ea64c7c684ad86e5edf0418647e1483,
      0x236909bfd1f9b1b36201fbf7f2d5b32973dfa0f7f371f063d9abe52c1af57f25);
    e, x := Window(P, 2, e, x, 1, 1, 1, 1, 0xf2ec932d1797488b4f7d6595a03d1990d50adbab1caecd189996f1f577ec927,
      0x5cd15c90e265bbca9f47a190c451de7df4766e3cdbe0477c38edfef94db0585,
      0x3c553aaf846c54946229033406f32bb64864b3c04ad33daee227581bdaedcc7b,
      0x36c8d57fe59cf5b50131893beff5f19a251093de6f438d8e769dbe66d5998e86);
    e, x := Window(P, 2, e, x, 1, 1, 1, 1, 0x6170fc5212282bff7bf89961957c7509ef0d26a1182e19b822f296a59008cf3c,
      0x7e31dcdea8843195c937622831b294ef2d7d252087fe190a58f2fcd28b830cf4,
      0x6caa96919a793352c65f64132a665a1887230380614199d0e087a9a94895b20,
      0x25e75686e9d058b44466fa9da9f7243791a29d901f525e7fa5764f717d9f2bea);
    e, x := Window(P, 2, e, x, 1, 1, 1, 1, 0x6ffd4c7762b25e8052a138d8dd4c56a4a16b4c292c90e36b78f6e2cd4192683,
      0x794c22ee8022654e58f5706e8a04cbfbe9de24a9846a8d69886836cd82670d3e,
      0x546248644e74a05bf53648b6a2871cf2cdf3779360705d25ebeae1b79b7b2204,
      0x5a0070bbdbaec550c34d7320f42ef3be93e9e22958c18d4119cf570add2717b7);
    e, x := Window(P, 2, e, x, 1, 1, 1, 1, 0x1987ba8628bb48bac640e8a86a9475a6b6c758838824607a5270f18bfa0a9fae,
      0x14368d620af9e06ea7258aad2cf532c97a181f3b9e5b997fc24a56ce9d0762ec,
      0xacbadb290a65f3a4834bee1aa9dd374b386c4dd6fa58e3e6acb980db153aeed,
      0x34b0237582fc32db8566225e50136ee4c161cbcfd89284ffe369393c3e6d952c);
    e, x := Window(P, 2, e, x, 1, 1, 1, 1, 0x7d62b22f10521440e0413f6d168fa3039a2f3b8485961f5ae92b89fac7eca84e,
      0x2f20cd0b61a8f9d5f54493ef1a9bf3572691f44537768dc0394d1a9da50a5181,
      0x36662b1935aeba2ed9ca4092a29ca8eaf63264a1de78bdf68209818eb72a1e18,
      0x747d8bb9c7f2923092d6c754ca769a7efecf88b29093813f9d5db39b09c9d62d);
    e, x := Window(P, 2, e, x, 1, 1, 1, 1, 0x1b4256e64cccd5a646be516473d8a528fd8b0c0b8469e1a430e1f4a6fc1bb51f,
      0x5f3d73b11382bbf3bc19500498e41d4837b4f764c49f57ea2468b4039cf497,
      0x69a5f23f1a0449b1a391ccd60f956da930707f3378f6c03c2d3310d05ddf6fe0,
      0x2b1e68bccd8700dadc428a2a003bd709cdc40f60fe24ce63240205b8e4603beb);
    e, x := Window(P, 2, e, x, 1, 1, 1, 1, 0x253392fca6d90387fcbc0a72674718f9a9033b76341157cd8ed443031c998804,
      0x484538b08925867f8331377131cb76ee94aa4bb0b07d610d78b6a5fc9d6ddfec,
      0x535e83ebf0302eb958eb5bd781d648af9bd42d9771f1bf938d686dc874d77ea3,
      0x48cbdcee84fc53ac5e5ec953add55b257eb1f2e0b0859fd7da3242f4b58f4a7);
    e, x := Window(P, 2, e, x, 1, 1, 1, 1, 0x2cc48846f44f9811078ed4f56630857241656016241e99536106b6a1afab0e2a,
      0x5e1ee569c6f05795cf0ef3a6086b1acf02d658e5238520e50defd5175652bc86,
      0xc044534349a3c04887bdb6773ab62d7138332f7ddf2fc238833d5014dbeae58,
      0x4ae8ab606b45876d92567cbc10aac8f0ff97fa18606940a1d04c884af5795b39);
    e, x := Window(P, 2, e, x, 1, 1, 1, 1, 0x710725894d325997603a56ef0998c9cd485ab6e2953f90ad0dceb0ef04813d3d,
      0x5f8d3e6839da7774898646dab878c348b669e49b6959a13450d0ba09f5f12cf3,
      0x7894996b30af4bcee3942feaeb7862c7a6d0ddafc3c3bb34cf47498e7e6e415c,
      0x5305614711bd445a0662d9534326de5c2d2e1a19210bd48a1981f8077e7f86e8);
    e, x := Window(P, 2, e, x, 1, 1, 1, 1, 0x868f06590bdfc693d9e5133cacf0b5e3c5aa6e68ceeef57b33c556d993d05f1,
      0x8779312ab35c954c3471c636fa99f2f0dae1343d935685a3a9c51f67b550086,
      0x27c4d02412c8b43b26650b2f6cf9526fbda8662a9aa6ddae1d1e93d9ead31626,
      0x4318c76c03527f54180d82e2b2c4d3840720d138a124a57cf83da4a363527785);
    e, x := Window(P, 2, e, x, 1, 1, 1, 1, 0x224c266e5e62e6688dce3bd1dc0985bd7d6d6ce48bead9727b81ed3b8adc8938,
      0x487c219ffb57031e21906f937a56ad0727008f9add2e939d7868beb22bf4d65b,
      0x38c96be353a2528c9d770a44bbf1f49aa37ddc973af2cf88d745ed3e1e28b81d,
      0x394910df33187c3135f8ed9c8e2f9ca4b5e34655773473ddfc2d95fe064d642d);
    e, x := Window(P, 2, e, x, 1, 0, 1, 1, 0x7f8c93ad10b56258d55fdaeefe606340a2aeb27fcc09f34af495e0b5be4f023c,
      0x32c3972e911d2f7bb05f4b8c6db60e0038687a672696cc25eecf94076fb5c22b,
      0x55c1924027e0ef8595a6804c9efdebd397a18c035697f23c62770d93a507504f,
      0x2b8324804fc1df0b2b4d00993dfbd7a72f431806ad2fe478c4ee1b274a0ea0b0);
  }

  lemma PowersOfTwo()
    ensures Power(P, 2, (P - 1) / 2, -1) && Power(P, 2, P - 1, 1)
  {
    RootOfMinusOne();
    hide Congruent;
    PowersMultiply(P, 2, (P - 1) / 4, (P - 1) / 4, I, I);
    CongruentTransitive(Pow(2, (P - 1) / 2), I * I, -1, P);
    PowersMultiply(P, 2, (P - 1) / 2, (P - 1) / 2, -1, -1);
  }

  /** 2^255 - 19 is prime. */
  lemma PrimeP()
    ensures IsPrime(P)
  {
    hide Power;
    PrimeQ1();
    PowersOfTwo();
    var e, u := Start(P, 2);
    e, u := Window(P, 2, e, u, 1, 0, 1, 1, 0x2, 0x4, 0x20, 0x800);
    e, u := Window(P, 2, e, u, 1, 1, 1, 0, 0x800000, 0x800000000000, 0x800000000000000000000000,
      0x400000000000000000000000000000000000000000000000);
    e, u := Window(P, 2, e, u, 1, 1, 0, 1, 0x4c0000000000000000000000000000000,
      0x20000000000000000000000000000000000000000000000000000000000006ae,
      0x18000000000000000000000000000000000000000000000000000000002cddcc,
      0x2b000000000000000000000000000000000000000000000000000fb9ff130dce);
    e, u := Window(P, 2, e, u, 1, 1, 0, 0, 0xcec00000000000000000000000000000000000001eea60dc69faed39b039c4b,
      0x162216c0000000000007778a91c0dd372b6facff37ea5ac6606bd318fa0e0f79,
      0x6eb9ef646ded500ec360dc97d3aba66fad01335ae230f0694f551ed107e18b80,
      0x1d804e3bfbc1c5189c61a656cc00905d55b7f22ae1771e1690048c93d6e78b58);
    e, u := Window(P, 2, e, u, 0, 1, 0, 0, 0x4029dd07f147e9f9cf214b626c20bb9c254fc9c7d0b5bdf5cd1e706290bb9f73,
      0xf10bda72989665e25b2f91d26cbc5d4ab0ae74eabcd6acd2f1164aa01ba7316,
      0x587b5882c7860235e1b4dd1a0040c4dbf4f21b56ccb70c2cb5a409f25a97a63c,
      0xf1ba0c491eeef83c49fc1b744331bb096d4893142c187431f7b03e61a75a49);
    CertifiedBy(P, Q1, 2, e, u, 0x7acaff384090e983b641a51e1df0807078e467d06ab8164555f0f7fd51653bdc);
    Pocklington(P, Q1, 2);
  }

  /******* The curve *******/

  /** D T^2 is congruent to two. */
  const T: int := 0x71a1b7c3ecc29f632f98b94ba8f43d96b24995bcafe8bac93ccddd5bd9e70aaf

  const ED25519: Curve := Curve(P, D, I)

  /** A square root of `D` gives a square root of two. */
  lemma RootOfTwo(w: int)
    requires IsRoot(w, D, P)
    ensures Congruent((w * T) * (w * T), 2, P)
  {
    assert Congruent(D * (T * T), 2, P);
    hide Congruent;
    Multiplied(P, w * w, D, T * T);
    CrossOrder(w, T, w, T);
    CongruentTransitive((w * T) * (w * T), D * (T * T), 2, P);
  }

  /** Two has no square root: its power (P - 1) / 2 is -1. */
  lemma TwoIsNoSquare(h: int)
    requires IsPrime(P)
    ensures !Congruent(h * h, 2, P)
  {
    if Congruent(h * h, 2, P) {
      var r, e := h % P, (P - 1) / 2;
      PowersOfTwo();
      CongruentRemainder(h, P);
      hide IsPrime;
      CongruentProduct(r, h, r, h, P);
      CongruentTransitive(r * r, h * h, 2, P);
      if Divides(P, r) {
        DividesProduct(P, r, r);
        DividesDifference(P, r * r, r * r - 2);
        assert false;
      }
      Fermat(P, r);
      hide Pow, Congruent, Divides;
      PowOfSquare(r, e);
      CongruentPower(r * r, 2, e, P);
      CongruentTransitive(Pow(r, P - 1), Pow(2, e), -1, P);
      CongruentSymmetric(Pow(r, P - 1), 1, P);
      CongruentTransitive(1, Pow(r, P - 1), -1, P);
      OneIsNotMinusOne();
    }
  }

  lemma OneIsNotMinusOne()
    ensures !Congruent(1, -1, P)
  {
  }

  /** The SDKs' curve satisfies every hypothesis of the addition law. */
  lemma Ed25519IsCurve()
    ensures IsCurve(ED25519) && P % 8 == 5
  {
    PrimeP();
    RootOfMinusOne();
    hide IsPrime, Power, Congruent;
    forall w
      ensures !IsRoot(w, D, P)
    {
      if IsRoot(w, D, P) {
        RootOfTwo(w);
        TwoIsNoSquare(w * T);
      }
    }
  }

  /** The constants are the values the SDKs compute for them. */
  lemma ConstantsAreComputed()
    ensures D == Mod(-121665 * Inverse(121666, P), P) && I == Pow(2, (P - 1) / 4) % P
  {
    PrimeP();
    RootOfMinusOne();
    var v := Inverse(121666, P);
    InverseInverts(121666, P);
    assert Congruent(D * 121666, -121665, P);
    hide IsPrime, Congruent, Inverse, Pow;
    Multiplied(P, D * 121666, -121665, v);
    Multiplied(P, 121666 * v, 1, D);
    ProductRegroups(D, 121666, v);
    CongruentSymmetric(D * (121666 * v), D, P);
    CongruentTransitive(D, D * (121666 * v), -121665 * v, P);
    SameRemainder(D, -121665 * v, P);
    SameRemainder(Pow(2, (P - 1) / 4), I, P);
    ModIsRemainder(-121665 * v, P);
  }
}
