/** The hash of util/ic_lex_support.c, and the search for parameters with which
    it keeps a set of symbols apart. */
module LexHash {
  import opened Basics
  import opened Symbols

  // ----- the hash, in 32-bit arithmetic -----

  function Code(c: char): bv32 {
    c as int as bv32
  }

  /** The source never divides by zero. */
  function Quotient(h: bv32, divider: bv32): bv32 {
    if divider == 0 then 0 else h / divider
  }

  /** One round of the loop of lex_hash. */
  function Round(h: bv32, code: bv32, multiplier: bv32, divider: bv32): bv32 {
    var h1 := h + code;
    var h2 := h1 + h1 * multiplier;
    h2 ^ Quotient(h2, divider)
  }

  type Rounds = (bv32, char) -> bv32

  function RoundWith(multiplier: bv32, divider: bv32): Rounds {
    (h, c) => Round(h, Code(c), multiplier, divider)
  }

  /** The loop of lex_hash over the characters of a string. */
  function Mix(h: bv32, s: string, round: Rounds): bv32
    decreases |s|
  {
    if s == "" then h else Mix(round(h, s[0]), s[1..], round)
  }

  /** The last steps; the mask keeps twelve bits. */
  function Finish(h: bv32): HashValue {
    var h1 := h + h * 8;
    var h2 := h1 ^ (h1 / 2048);
    (h2 + h2 * 32) as nat % SIZE_MAP_SYMBOL
  }

  function Word(n: nat): bv32 {
    if n < TWO_TO_32 then n as bv32 else 0
  }

  /** lex_hash. */
  function Hash(s: string, multiplier: nat, divider: nat): HashValue {
    Finish(Mix(0, s, RoundWith(Word(multiplier), Word(divider))))
  }

  function HashWith(multiplier: nat, divider: nat): (f: HashFunction)
    ensures forall s :: f(s) == Hash(s, multiplier, divider)
  {
    s => Hash(s, multiplier, divider)
  }

  // ----- the search -----

  const MAX_ATTEMPTS: nat := 10000

  /** The parameters of attempt `n`, counted from 1. */
  function Multiplier(n: nat): nat {
    1024 + 2 * (n / 3 + (n + 1) / 3)
  }

  function Divider(n: nat): nat {
    64 + 2 * ((n + 2) / 3)
  }

  /** Attempt `n` keeps the symbols apart. */
  ghost predicate AttemptWorks(symbols: seq<Symbol>, n: nat) {
    CollisionFree(symbols, HashWith(Multiplier(n), Divider(n)))
  }

  lemma NextAttempt(n: nat)
    ensures Multiplier(n + 1) == Multiplier(n) + if (n + 1) % 3 == 1 then 0 else 2
    ensures Divider(n + 1) == Divider(n) + if (n + 1) % 3 == 1 then 2 else 0
    ensures Multiplier(0) == 1024 && Divider(0) == 64
  {
    var q, r := n / 3, n % 3;
    assert n == 3 * q + r;
    assert (n + 1) % 3 == (r + 1) % 3;
    assert (n + 1) / 3 == (if r == 2 then q + 1 else q);
    assert (n + 2) / 3 == (if r >= 1 then q + 1 else q);
    assert (n + 3) / 3 == q + 1;
  }

  ghost predicate Uses(table: SymbolTable, n: nat) {
    table.hash == HashWith(Multiplier(n), Divider(n))
  }

  /** The parameters of the next attempt. */
  method Advance(n: nat, m: nat, d: nat) returns (multiplier: nat, divider: nat)
    requires n > 0 && m == Multiplier(n - 1) && d == Divider(n - 1)
    ensures multiplier == Multiplier(n) && divider == Divider(n)
  {
    NextAttempt(n - 1);
    multiplier, divider := m, d;
    if n % 3 == 0 {
      multiplier := multiplier + 2;
    }
    if n % 3 == 1 {
      divider := divider + 2;
    }
    if n % 3 == 2 {
      multiplier := multiplier + 2;
    }
  }

  method Attempt(symbols: seq<Symbol>, ghost n: nat, multiplier: nat, divider: nat)
      returns (failed: bool, table: SymbolTable)
    requires WellFormed(symbols) && n <= MAX_ATTEMPTS && multiplier == Multiplier(n) && divider == Divider(n)
    ensures failed <==> !AttemptWorks(symbols, n)
    ensures !failed ==> Perfect(symbols, table) && Uses(table, n)
  {
    hide Perfect, CollisionFree, Multiplier, Divider, WellFormed, SymbolTable.Shaped, HashWith;
    failed, table := FillTable(symbols, HashWith(multiplier, divider));
  }

  /** None of the first `k` attempts works. */
  ghost predicate NoneWorks(symbols: seq<Symbol>, k: nat) {
    forall n :: 1 <= n <= k ==> !AttemptWorks(symbols, n)
  }

  lemma NoneWorksNext(symbols: seq<Symbol>, k: nat)
    ensures NoneWorks(symbols, 0)
    ensures NoneWorks(symbols, k + 1) <==> NoneWorks(symbols, k) && !AttemptWorks(symbols, k + 1)
  {
    hide AttemptWorks;
  }

  lemma SomeAttempts()
    ensures MAX_ATTEMPTS > 0
  {
  }

  lemma SomeWorks(symbols: seq<Symbol>, n: nat, k: nat)
    requires 1 <= n <= k && AttemptWorks(symbols, n)
    ensures !NoneWorks(symbols, k)
  {
    hide AttemptWorks;
  }

  /** ic_find_hash_function: the first parameters that keep the symbols apart;
      it fails exactly when none of the attempts does. */
  method FindHashFunction(symbols: seq<Symbol>) returns (failed: bool, table: SymbolTable, ghost attempt: nat)
    requires WellFormed(symbols)
    ensures failed <==> NoneWorks(symbols, MAX_ATTEMPTS)
    ensures !failed ==> 1 <= attempt <= MAX_ATTEMPTS && Perfect(symbols, table) && Uses(table, attempt)
    ensures !failed ==> NoneWorks(symbols, attempt - 1)
  {
    hide *;
    var multiplier: nat, divider: nat := 1024, 64;
    failed, table, attempt := true, SymbolTable(HashWith(1024, 64), []), 0;
    var loopCount: nat := 0;
    NextAttempt(0);
    NoneWorksNext(symbols, 0);
    SomeAttempts();
    while loopCount < MAX_ATTEMPTS && failed
      invariant attempt == loopCount <= MAX_ATTEMPTS
      invariant multiplier == Multiplier(loopCount) && divider == Divider(loopCount)
      invariant failed ==> NoneWorks(symbols, loopCount)
      invariant !failed ==> 1 <= loopCount && NoneWorks(symbols, loopCount - 1) && AttemptWorks(symbols, loopCount)
      invariant !failed ==> Perfect(symbols, table) && Uses(table, loopCount)
    {
      NoneWorksNext(symbols, loopCount);
      loopCount, attempt := loopCount + 1, attempt + 1;
      multiplier, divider := Advance(loopCount, multiplier, divider);
      failed, table := Attempt(symbols, loopCount, multiplier, divider);
    }
    if !failed {
      SomeWorks(symbols, loopCount, MAX_ATTEMPTS);
    }
  }
}
