/** The search for a hash function succeeds for the bootstrap keywords: the
    second pair of parameters, 1026 and 66, keeps all 21 apart. The numbers are
    the values of the hash after each character. */
module KeywordHashes {
  import opened Basics
  import opened Symbols
  import opened LexHash
  import opened BootLex

  // ----- one character -----

  function Rounds66(): Rounds {
    RoundWith(1026, 66)
  }

  lemma Step(h: bv32, s: string, code: bv32, rest: string, next: bv32)
    requires s != "" && Code(s[0]) == code && Round(h, code, 1026, 66) == next && s == [s[0]] + rest
    ensures Mix(h, s, Rounds66()) == Mix(next, rest, Rounds66())
  {
    assert Rounds66()(h, s[0]) == Round(h, Code(s[0]), 1026, 66);
    hide Code, Round, Rounds66;
    assert s[1..] == rest;
  }

  lemma Done(h: bv32)
    ensures Mix(h, "", Rounds66()) == h
  {
  }

  lemma MultiplierIs()
    ensures Word(1026) == 1026
  {
    assert 1026 as bv32 == 1026;
  }

  lemma DividerIs()
    ensures Word(66) == 66
  {
    assert 66 as bv32 == 66;
  }

  lemma HashIs(s: string)
    ensures Hash(s, 1026, 66) == Finish(Mix(0, s, Rounds66()))
  {
    MultiplierIs();
    DividerIs();
    hide Mix, Finish, Word, RoundWith;
  }

  lemma Codes0()
    ensures Code('=') == 61 && Code('A') == 65 && Code('C') == 67 && Code('D') == 68
  {
  }

  lemma Codes1()
    ensures Code('E') == 69 && Code('F') == 70 && Code('G') == 71 && Code('H') == 72
  {
  }

  lemma Codes2()
    ensures Code('I') == 73 && Code('L') == 76 && Code('M') == 77 && Code('N') == 78
  {
  }

  lemma Codes3()
    ensures Code('O') == 79 && Code('P') == 80 && Code('Q') == 81 && Code('R') == 82
  {
  }

  lemma Codes4()
    ensures Code('S') == 83 && Code('T') == 84 && Code('U') == 85 && Code('V') == 86
  {
  }

  lemma Codes5()
    ensures Code('X') == 88 && Code('_') == 95
  {
  }

  lemma AllCodes()
    ensures Code('=') == 61 && Code('A') == 65 && Code('C') == 67 && Code('D') == 68
    ensures Code('E') == 69 && Code('F') == 70 && Code('G') == 71 && Code('H') == 72
    ensures Code('I') == 73 && Code('L') == 76 && Code('M') == 77 && Code('N') == 78
    ensures Code('O') == 79 && Code('P') == 80 && Code('Q') == 81 && Code('R') == 82
    ensures Code('S') == 83 && Code('T') == 84 && Code('U') == 85 && Code('V') == 86
    ensures Code('X') == 88 && Code('_') == 95
  {
    hide Code;
    Codes0();
    Codes1();
    Codes2();
    Codes3();
    Codes4();
    Codes5();
  }

  // ----- the keywords -----

  lemma HashCluster(s: string)
    requires s == "CLUSTER"
    ensures Hash(s, 1026, 66) == 1126
  {
    AllCodes();
    hide Code, Mix, Hash, Rounds66;
    Step(0, "CLUSTER", 67, "LUSTER", 67803);
    Step(67803, "LUSTER", 76, "USTER", 70757019);
    Step(70757019, "USTER", 85, "STER", 3905029132);
    Step(3905029132, "STER", 83, "TER", 3232122554);
    Step(3232122554, "TER", 84, "ER", 3630080916);
    Step(3630080916, "ER", 69, "R", 61175016);
    Step(61175016, "R", 82, "", 2729107445);
    Done(2729107445);
    HashIs("CLUSTER");
    assert Finish(2729107445) == 1126;
  }

  lemma HashClusterId(s: string)
    requires s == "CLUSTER_ID"
    ensures Hash(s, 1026, 66) == 1456
  {
    AllCodes();
    hide Code, Mix, Hash, Rounds66;
    Step(0, "CLUSTER_ID", 67, "LUSTER_ID", 67803);
    Step(67803, "LUSTER_ID", 76, "USTER_ID", 70757019);
    Step(70757019, "USTER_ID", 85, "STER_ID", 3905029132);
    Step(3905029132, "STER_ID", 83, "TER_ID", 3232122554);
    Step(3232122554, "TER_ID", 84, "ER_ID", 3630080916);
    Step(3630080916, "ER_ID", 69, "R_ID", 61175016);
    Step(61175016, "R_ID", 82, "_ID", 2729107445);
    Step(2729107445, "_ID", 95, "ID", 2445137523);
    Step(2445137523, "ID", 73, "D", 2919830191);
    Step(2919830191, "D", 68, "", 785709288);
    Done(785709288);
    HashIs("CLUSTER_ID");
    assert Finish(785709288) == 1456;
  }

  lemma HashData(s: string)
    requires s == "DATA"
    ensures Hash(s, 1026, 66) == 3358
  {
    AllCodes();
    hide Code, Mix, Hash, Rounds66;
    Step(0, "DATA", 68, "ATA", 70894);
    Step(70894, "ATA", 65, "TA", 71770792);
    Step(71770792, "TA", 84, "A", 700570029);
    Step(700570029, "A", 65, "", 2259674588);
    Done(2259674588);
    HashIs("DATA");
    assert Finish(2259674588) == 3358;
  }

  lemma HashEqual(s: string)
    requires s == "="
    ensures Hash(s, 1026, 66) == 3815
  {
    AllCodes();
    hide Code, Mix, Hash, Rounds66;
    Step(0, "=", 61, "", 63234);
    Done(63234);
    HashIs("=");
    assert Finish(63234) == 3815;
  }

  lemma HashExit(s: string)
    requires s == "EXIT"
    ensures Hash(s, 1026, 66) == 606
  {
    AllCodes();
    hide Code, Mix, Hash, Rounds66;
    Step(0, "EXIT", 69, "XIT", 69886);
    Step(69886, "XIT", 88, "IT", 72880455);
    Step(72880455, "IT", 73, "T", 1827245746);
    Step(1827245746, "T", 84, "", 4017089748);
    Done(4017089748);
    HashIs("EXIT");
    assert Finish(4017089748) == 606;
  }

  lemma HashFile(s: string)
    requires s == "FILE"
    ensures Hash(s, 1026, 66) == 3519
  {
    AllCodes();
    hide Code, Mix, Hash, Rounds66;
    Step(0, "FILE", 70, "ILE", 72851);
    Step(72851, "ILE", 73, "LE", 73897473);
    Step(73897473, "LE", 76, "E", 2836824798);
    Step(2836824798, "E", 69, "", 1411054692);
    Done(1411054692);
    HashIs("FILE");
    assert Finish(1411054692) == 3519;
  }

  lemma HashFiles(s: string)
    requires s == "FILES"
    ensures Hash(s, 1026, 66) == 3645
  {
    AllCodes();
    hide Code, Mix, Hash, Rounds66;
    Step(0, "FILES", 70, "ILES", 72851);
    Step(72851, "ILES", 73, "LES", 73897473);
    Step(73897473, "LES", 76, "ES", 2836824798);
    Step(2836824798, "ES", 69, "S", 1411054692);
    Step(1411054692, "S", 83, "", 1775745484);
    Done(1775745484);
    HashIs("FILES");
    assert Finish(1775745484) == 3645;
  }

  lemma HashHost(s: string)
    requires s == "HOST"
    ensures Hash(s, 1026, 66) == 2573
  {
    AllCodes();
    hide Code, Mix, Hash, Rounds66;
    Step(0, "HOST", 72, "OST", 74936);
    Step(74936, "OST", 79, "ST", 75908283);
    Step(75908283, "ST", 83, "T", 640871324);
    Step(640871324, "T", 84, "", 1052317364);
    Done(1052317364);
    HashIs("HOST");
    assert Finish(1052317364) == 2573;
  }

  lemma HashManager(s: string)
    requires s == "MANAGER"
    ensures Hash(s, 1026, 66) == 3224
  {
    AllCodes();
    hide Code, Mix, Hash, Rounds66;
    Step(0, "MANAGER", 77, "ANAGER", 77897);
    Step(77897, "ANAGER", 65, "NAGER", 81214289);
    Step(81214289, "NAGER", 78, "AGER", 1792337077);
    Step(1792337077, "AGER", 65, "GER", 2519519618);
    Step(2519519618, "GER", 71, "ER", 1946515382);
    Step(1946515382, "ER", 69, "R", 1883873840);
    Step(1883873840, "R", 82, "", 1990839598);
    Done(1990839598);
    HashIs("MANAGER");
    assert Finish(1990839598) == 3224;
  }

  lemma HashManagers(s: string)
    requires s == "MANAGERS"
    ensures Hash(s, 1026, 66) == 2704
  {
    AllCodes();
    hide Code, Mix, Hash, Rounds66;
    Step(0, "MANAGERS", 77, "ANAGERS", 77897);
    Step(77897, "ANAGERS", 65, "NAGERS", 81214289);
    Step(81214289, "NAGERS", 78, "AGERS", 1792337077);
    Step(1792337077, "AGERS", 65, "GERS", 2519519618);
    Step(2519519618, "GERS", 71, "ERS", 1946515382);
    Step(1946515382, "ERS", 69, "RS", 1883873840);
    Step(1883873840, "RS", 82, "S", 1990839598);
    Step(1990839598, "S", 83, "", 186130082);
    Done(186130082);
    HashIs("MANAGERS");
    assert Finish(186130082) == 2704;
  }

  lemma HashNodeId(s: string)
    requires s == "NODE_ID"
    ensures Hash(s, 1026, 66) == 4048
  {
    AllCodes();
    hide Code, Mix, Hash, Rounds66;
    Step(0, "NODE_ID", 78, "ODE_ID", 80983);
    Step(80983, "ODE_ID", 79, "DE_ID", 82145999);
    Step(82145999, "DE_ID", 68, "E_ID", 2785191865);
    Step(2785191865, "E_ID", 69, "_ID", 4285796411);
    Step(4285796411, "_ID", 95, "ID", 3451909921);
    Step(3451909921, "ID", 73, "D", 1753888331);
    Step(1753888331, "D", 68, "", 1661283442);
    Done(1661283442);
    HashIs("NODE_ID");
    assert Finish(1661283442) == 4048;
  }

  lemma HashPcntrlHost(s: string)
    requires s == "PCNTRL_HOST"
    ensures Hash(s, 1026, 66) == 3083
  {
    AllCodes();
    hide Code, Mix, Hash, Rounds66;
    Step(0, "PCNTRL_HOST", 80, "CNTRL_HOST", 82988);
    Step(82988, "CNTRL_HOST", 67, "NTRL_HOST", 84291887);
    Step(84291887, "NTRL_HOST", 78, "TRL_HOST", 658638275);
    Step(658638275, "TRL_HOST", 84, "RL_HOST", 2083936700);
    Step(2083936700, "RL_HOST", 82, "L_HOST", 1327886711);
    Step(1327886711, "L_HOST", 76, "_HOST", 2268880081);
    Step(2268880081, "_HOST", 95, "HOST", 2233832100);
    Step(2233832100, "HOST", 72, "OST", 623785577);
    Step(623785577, "OST", 79, "ST", 687420580);
    Step(687420580, "ST", 83, "T", 1590433841);
    Step(1590433841, "T", 84, "", 1307547282);
    Done(1307547282);
    HashIs("PCNTRL_HOST");
    assert Finish(1307547282) == 3083;
  }

  lemma HashPcntrlPort(s: string)
    requires s == "PCNTRL_PORT"
    ensures Hash(s, 1026, 66) == 3649
  {
    AllCodes();
    hide Code, Mix, Hash, Rounds66;
    Step(0, "PCNTRL_PORT", 80, "CNTRL_PORT", 82988);
    Step(82988, "CNTRL_PORT", 67, "NTRL_PORT", 84291887);
    Step(84291887, "NTRL_PORT", 78, "TRL_PORT", 658638275);
    Step(658638275, "TRL_PORT", 84, "RL_PORT", 2083936700);
    Step(2083936700, "RL_PORT", 82, "L_PORT", 1327886711);
    Step(1327886711, "L_PORT", 76, "_PORT", 2268880081);
    Step(2268880081, "_PORT", 95, "PORT", 2233832100);
    Step(2233832100, "PORT", 80, "ORT", 623826934);
    Step(623826934, "ORT", 79, "RT", 709566127);
    Step(709566127, "RT", 82, "T", 2848313600);
    Step(2848313600, "T", 84, "", 349773778);
    Done(349773778);
    HashIs("PCNTRL_PORT");
    assert Finish(349773778) == 3649;
  }

  lemma HashPrepare(s: string)
    requires s == "PREPARE"
    ensures Hash(s, 1026, 66) == 3695
  {
    AllCodes();
    hide Code, Mix, Hash, Rounds66;
    Step(0, "PREPARE", 80, "REPARE", 82988);
    Step(82988, "REPARE", 82, "EPARE", 84311089);
    Step(84311089, "EPARE", 69, "PARE", 697979184);
    Step(697979184, "PARE", 80, "ARE", 3848832207);
    Step(3848832207, "ARE", 65, "RE", 1400042082);
    Step(1400042082, "RE", 82, "E", 3307414098);
    Step(3307414098, "E", 69, "", 3634816549);
    Done(3634816549);
    HashIs("PREPARE");
    assert Finish(3634816549) == 3695;
  }

  lemma HashReplication(s: string)
    requires s == "REPLICATION"
    ensures Hash(s, 1026, 66) == 3749
  {
    AllCodes();
    hide Code, Mix, Hash, Rounds66;
    Step(0, "REPLICATION", 82, "EPLICATION", 85005);
    Step(85005, "EPLICATION", 69, "PLICATION", 86056941);
    Step(86056941, "PLICATION", 80, "LICATION", 2446979206);
    Step(2446979206, "LICATION", 76, "ICATION", 488680642);
    Step(488680642, "ICATION", 73, "CATION", 3646675617);
    Step(3646675617, "CATION", 67, "ATION", 4172325074);
    Step(4172325074, "ATION", 65, "TION", 2919973483);
    Step(2919973483, "TION", 84, "ION", 939181764);
    Step(939181764, "ION", 73, "ON", 2436290060);
    Step(2436290060, "ON", 79, "N", 2362920374);
    Step(2362920374, "N", 78, "", 62093765);
    Done(62093765);
    HashIs("REPLICATION");
    assert Finish(62093765) == 3749;
  }

  lemma HashQuit(s: string)
    requires s == "QUIT"
    ensures Hash(s, 1026, 66) == 1001
  {
    AllCodes();
    hide Code, Mix, Hash, Rounds66;
    Step(0, "QUIT", 81, "UIT", 81951);
    Step(81951, "UIT", 85, "IT", 85388077);
    Step(85388077, "IT", 73, "T", 1802258857);
    Step(1802258857, "T", 84, "", 4041007181);
    Done(4041007181);
    HashIs("QUIT");
    assert Finish(4041007181) == 1001;
  }

  lemma HashSend(s: string)
    requires s == "SEND"
    ensures Hash(s, 1026, 66) == 894
  {
    AllCodes();
    hide Code, Mix, Hash, Rounds66;
    Step(0, "SEND", 83, "END", 84466);
    Step(84466, "END", 69, "ND", 87599346);
    Step(87599346, "ND", 78, "D", 4058326726);
    Step(4058326726, "D", 68, "", 1809305869);
    Done(1809305869);
    HashIs("SEND");
    assert Finish(1809305869) == 894;
  }

  lemma HashServer(s: string)
    requires s == "SERVER"
    ensures Hash(s, 1026, 66) == 1407
  {
    AllCodes();
    hide Code, Mix, Hash, Rounds66;
    Step(0, "SERVER", 83, "ERVER", 84466);
    Step(84466, "ERVER", 69, "RVER", 87599346);
    Step(87599346, "RVER", 82, "VER", 4058306185);
    Step(4058306185, "VER", 86, "ER", 1755147264);
    Step(1755147264, "ER", 69, "R", 2904655520);
    Step(2904655520, "R", 82, "", 2409924168);
    Done(2409924168);
    HashIs("SERVER");
    assert Finish(2409924168) == 1407;
  }

  lemma HashServers(s: string)
    requires s == "SERVERS"
    ensures Hash(s, 1026, 66) == 2445
  {
    AllCodes();
    hide Code, Mix, Hash, Rounds66;
    Step(0, "SERVERS", 83, "ERVERS", 84466);
    Step(84466, "ERVERS", 69, "RVERS", 87599346);
    Step(87599346, "RVERS", 82, "VERS", 4058306185);
    Step(4058306185, "VERS", 86, "ERS", 1755147264);
    Step(1755147264, "ERS", 69, "RS", 2904655520);
    Step(2904655520, "RS", 82, "S", 2409924168);
    Step(2409924168, "S", 83, "", 1107018207);
    Done(1107018207);
    HashIs("SERVERS");
    assert Finish(1107018207) == 2445;
  }

  lemma HashSql(s: string)
    requires s == "SQL"
    ensures Hash(s, 1026, 66) == 288
  {
    AllCodes();
    hide Code, Mix, Hash, Rounds66;
    Step(0, "SQL", 83, "QL", 84466);
    Step(84466, "QL", 81, "L", 87620059);
    Step(87620059, "L", 76, "", 4028845471);
    Done(4028845471);
    HashIs("SQL");
    assert Finish(4028845471) == 288;
  }

  lemma HashStart(s: string)
    requires s == "START"
    ensures Hash(s, 1026, 66) == 3253
  {
    AllCodes();
    hide Code, Mix, Hash, Rounds66;
    Step(0, "START", 83, "TART", 84466);
    Step(84466, "TART", 84, "ART", 87614867);
    Step(87614867, "ART", 65, "RT", 4042099412);
    Step(4042099412, "RT", 82, "T", 2330329727);
    Step(2330329727, "T", 84, "", 945897685);
    Done(945897685);
    HashIs("START");
    assert Finish(945897685) == 3253;
  }

  // ----- all of them -----

  /** The slot of a keyword, and the keyword of a slot. */
  function Slot(id: nat): nat {
    match id
    case 258 => 1126
    case 259 => 1456
    case 260 => 3358
    case 261 => 3815
    case 262 => 606
    case 263 => 3519
    case 264 => 3645
    case 265 => 2573
    case 266 => 3224
    case 267 => 2704
    case 268 => 4048
    case 269 => 3083
    case 270 => 3649
    case 271 => 3695
    case 272 => 3749
    case 273 => 1001
    case 274 => 894
    case 275 => 1407
    case 276 => 2445
    case 277 => 288
    case 278 => 3253
    case _ => 0
  }

  function KeywordAt(slot: nat): nat {
    match slot
    case 1126 => 258
    case 1456 => 259
    case 3358 => 260
    case 3815 => 261
    case 606 => 262
    case 3519 => 263
    case 3645 => 264
    case 2573 => 265
    case 3224 => 266
    case 2704 => 267
    case 4048 => 268
    case 3083 => 269
    case 3649 => 270
    case 3695 => 271
    case 3749 => 272
    case 1001 => 273
    case 894 => 274
    case 1407 => 275
    case 2445 => 276
    case 288 => 277
    case 3253 => 278
    case _ => 0
  }

  lemma SlotsDiffer(id: nat)
    requires IsKeyword(id)
    ensures KeywordAt(Slot(id)) == id
  {
  }

  lemma KeywordHash(id: nat)
    requires IsKeyword(id)
    ensures Hash(Spelling(id), 1026, 66) == Slot(id)
  {
    hide Hash;
    match id
    case 258 => HashCluster(Spelling(id));
    case 259 => HashClusterId(Spelling(id));
    case 260 => HashData(Spelling(id));
    case 261 => HashEqual(Spelling(id));
    case 262 => HashExit(Spelling(id));
    case 263 => HashFile(Spelling(id));
    case 264 => HashFiles(Spelling(id));
    case 265 => HashHost(Spelling(id));
    case 266 => HashManager(Spelling(id));
    case 267 => HashManagers(Spelling(id));
    case 268 => HashNodeId(Spelling(id));
    case 269 => HashPcntrlHost(Spelling(id));
    case 270 => HashPcntrlPort(Spelling(id));
    case 271 => HashPrepare(Spelling(id));
    case 272 => HashReplication(Spelling(id));
    case 273 => HashQuit(Spelling(id));
    case 274 => HashSend(Spelling(id));
    case 275 => HashServer(Spelling(id));
    case 276 => HashServers(Spelling(id));
    case 277 => HashSql(Spelling(id));
    case _ => HashStart(Spelling(id));
  }

  lemma KeywordsAreApart()
    ensures CollisionFree(BootSymbols(), HashWith(1026, 66))
  {
    var symbols, hash := BootSymbols(), HashWith(1026, 66);
    hide Hash, Spelling;
    forall i, j | 0 <= i < j < |symbols| ensures hash(symbols[i].name) != hash(symbols[j].name) {
      assert symbols[i].name == Spelling(CLUSTER + i) && symbols[j].name == Spelling(CLUSTER + j);
      Apart(CLUSTER + i, CLUSTER + j);
    }
  }

  lemma Apart(id: nat, other: nat)
    requires IsKeyword(id) && IsKeyword(other) && id != other
    ensures Hash(Spelling(id), 1026, 66) != Hash(Spelling(other), 1026, 66)
  {
    hide *;
    KeywordHash(id);
    KeywordHash(other);
    SlotsDiffer(id);
    SlotsDiffer(other);
  }

  lemma SecondAttemptWorks(n: nat)
    requires n == 2
    ensures AttemptWorks(BootSymbols(), n)
  {
    assert Multiplier(2) == 1026 && Divider(2) == 66;
    hide CollisionFree, BootSymbols;
    KeywordsAreApart();
  }

  /** ic_boot_find_hash_function does not fail. */
  method BootFindHashFunction() returns (table: SymbolTable)
    ensures Perfect(BootSymbols(), table)
  {
    hide *;
    var symbols := BootSymbols();
    SecondAttemptWorks(2);
    AttemptIsInRange();
    SomeWorks(symbols, 2, MAX_ATTEMPTS);
    var failed;
    ghost var attempt;
    failed, table, attempt := FindHashFunction(symbols);
  }

  lemma AttemptIsInRange()
    ensures 2 <= MAX_ATTEMPTS
  {
  }
}
