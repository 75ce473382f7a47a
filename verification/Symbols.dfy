/** The keyword table of util/ic_lex_support.c: keywords are found by a hash
    alone. The table works with any hash function. */
module Symbols {
  import opened Basics

  const SIZE_MAP_SYMBOL: nat := 4096

  type HashValue = n: nat | n < SIZE_MAP_SYMBOL

  type HashFunction = string -> HashValue

  // ----- a keyword table -----

  /** `slots` maps a hash value to a symbol, 0 meaning none. */
  datatype SymbolTable = SymbolTable(hash: HashFunction, slots: seq<nat>) {
    predicate Shaped() {
      |slots| == SIZE_MAP_SYMBOL
    }

    /** What a word is taken for: a symbol, or 0 for an identifier. Words are
        compared in upper case, and only by their hash. */
    function Lookup(word: string): nat
      requires Shaped()
    {
      slots[hash(Upper(word))]
    }
  }

  function UpperChar(c: char): char {
    if 'a' <= c <= 'z' then c - 'a' + 'A' else c
  }

  /** ic_convert_to_uppercase. */
  function Upper(s: string): (u: string)
    ensures |u| == |s| && forall i :: 0 <= i < |s| ==> u[i] == UpperChar(s[i])
  {
    seq(|s|, i requires 0 <= i < |s| => UpperChar(s[i]))
  }

  datatype Symbol = Symbol(name: string, id: nat)

  ghost predicate WellFormed(symbols: seq<Symbol>) {
    forall i :: 0 <= i < |symbols| ==> 0 < symbols[i].id < 65536
  }

  /** No two symbols share a hash value. */
  ghost predicate CollisionFree(symbols: seq<Symbol>, hash: HashFunction) {
    forall i, j :: 0 <= i < j < |symbols| ==>
      hash(symbols[i].name) != hash(symbols[j].name)
  }

  /** Every symbol has a slot of its own, and no other slot is used. */
  ghost predicate Perfect(symbols: seq<Symbol>, table: SymbolTable) {
    && table.Shaped()
    && CollisionFree(symbols, table.hash)
    && (forall i :: 0 <= i < |symbols| ==>
          table.slots[table.hash(symbols[i].name)] == symbols[i].id)
    && (forall k :: 0 <= k < SIZE_MAP_SYMBOL && table.slots[k] != 0 ==>
          exists i :: 0 <= i < |symbols| && table.hash(symbols[i].name) == k)
  }

  /** Only the hash decides: a word is an identifier exactly when it meets no
      symbol, and every word that meets one is taken for it, whatever it spells. */
  lemma {:induction false} WordIsTakenByHash(symbols: seq<Symbol>, table: SymbolTable, word: string)
    requires WellFormed(symbols) && Perfect(symbols, table)
    ensures table.Lookup(word) == 0 <==>
              forall i :: 0 <= i < |symbols| ==>
                table.hash(symbols[i].name) != table.hash(Upper(word))
    ensures forall i :: 0 <= i < |symbols| ==>
              (table.hash(symbols[i].name) == table.hash(Upper(word))
               ==> table.Lookup(word) == symbols[i].id)
    ensures table.Lookup(Upper(word)) == table.Lookup(word)
  {
    assert Upper(Upper(word)) == Upper(word);
    hide Upper;
    var k := table.hash(Upper(word));
    assert table.Lookup(word) == table.slots[k];
    forall i | 0 <= i < |symbols| && table.hash(symbols[i].name) == k
      ensures table.slots[k] == symbols[i].id && symbols[i].id != 0
    {
      assert table.slots[table.hash(symbols[i].name)] == symbols[i].id;
    }
  }

  /** The slot of a symbol. */
  function SlotOf(symbols: seq<Symbol>, i: nat, hash: HashFunction): (slot: nat)
    requires i < |symbols|
    ensures slot < SIZE_MAP_SYMBOL
  {
    hash(symbols[i].name)
  }

  ghost predicate Meet(symbols: seq<Symbol>, n: nat, hash: HashFunction)
    requires n <= |symbols|
  {
    exists i: nat, j: nat :: i < j < n && SlotOf(symbols, i, hash) == SlotOf(symbols, j, hash)
  }

  /** A table after the first `n` symbols: their slots and no others are used,
      and while no two have met each holds its symbol. */
  ghost predicate Filled(symbols: seq<Symbol>, n: nat, hash: HashFunction, slots: seq<nat>)
    requires n <= |symbols|
  {
    && |slots| == SIZE_MAP_SYMBOL
    && (forall i: nat :: i < n ==> slots[SlotOf(symbols, i, hash)] != 0)
    && (forall k :: 0 <= k < SIZE_MAP_SYMBOL && slots[k] != 0 ==>
          exists i: nat :: i < n && SlotOf(symbols, i, hash) == k)
    && (!Meet(symbols, n, hash) ==>
          forall i: nat :: i < n ==> slots[SlotOf(symbols, i, hash)] == symbols[i].id)
  }

  lemma FillStep(symbols: seq<Symbol>, n: nat, hash: HashFunction, slots: seq<nat>)
    requires WellFormed(symbols) && n < |symbols| && Filled(symbols, n, hash, slots)
    ensures var id := SlotOf(symbols, n, hash);
            && (slots[id] != 0 ==> Meet(symbols, n + 1, hash) && Filled(symbols, n + 1, hash, slots))
            && (slots[id] == 0 ==>
                  && (Meet(symbols, n + 1, hash) <==> Meet(symbols, n, hash))
                  && Filled(symbols, n + 1, hash, slots[id := symbols[n].id]))
  {
    hide SlotOf;
    var id := SlotOf(symbols, n, hash);
    if slots[id] != 0 {
      var i: nat :| i < n && SlotOf(symbols, i, hash) == id;
      assert Meet(symbols, n + 1, hash);
      forall k | 0 <= k < SIZE_MAP_SYMBOL && slots[k] != 0
        ensures exists i: nat :: i < n + 1 && SlotOf(symbols, i, hash) == k
      {
        var i: nat :| i < n && SlotOf(symbols, i, hash) == k;
      }
    } else {
      FillEmpty(symbols, n, hash, slots, id);
    }
  }

  lemma FillEmpty(symbols: seq<Symbol>, n: nat, hash: HashFunction, slots: seq<nat>, id: nat)
    requires WellFormed(symbols) && n < |symbols| && Filled(symbols, n, hash, slots)
    requires id == SlotOf(symbols, n, hash) && slots[id] == 0
    ensures Meet(symbols, n + 1, hash) <==> Meet(symbols, n, hash)
    ensures Filled(symbols, n + 1, hash, slots[id := symbols[n].id])
  {
    hide SlotOf;
    assert forall i: nat :: i < n ==> SlotOf(symbols, i, hash) != id;
    if Meet(symbols, n + 1, hash) {
      var i: nat, j: nat :| i < j < n + 1 && SlotOf(symbols, i, hash) == SlotOf(symbols, j, hash);
      assert j < n;
    }
    if Meet(symbols, n, hash) {
      var i: nat, j: nat :| i < j < n && SlotOf(symbols, i, hash) == SlotOf(symbols, j, hash);
      assert j < n + 1;
    }
    hide Meet;
    var more := slots[id := symbols[n].id];
    forall k | 0 <= k < SIZE_MAP_SYMBOL && more[k] != 0
      ensures exists i: nat :: i < n + 1 && SlotOf(symbols, i, hash) == k
    {
      if k == id {
        assert n < n + 1;
      } else {
        var i: nat :| i < n && SlotOf(symbols, i, hash) == k;
      }
    }
  }

  lemma IsShaped(table: SymbolTable)
    requires |table.slots| == SIZE_MAP_SYMBOL
    ensures table.Shaped()
  {
  }

  lemma EmptyIsFilled(symbols: seq<Symbol>, hash: HashFunction, slots: seq<nat>)
    requires |slots| == SIZE_MAP_SYMBOL && forall k :: 0 <= k < |slots| ==> slots[k] == 0
    ensures Filled(symbols, 0, hash, slots) && !Meet(symbols, 0, hash)
  {
    hide SlotOf;
  }

  lemma FilledIsPerfect(symbols: seq<Symbol>, hash: HashFunction, slots: seq<nat>)
    requires Filled(symbols, |symbols|, hash, slots)
    ensures Meet(symbols, |symbols|, hash) <==> !CollisionFree(symbols, hash)
    ensures CollisionFree(symbols, hash) ==> Perfect(symbols, SymbolTable(hash, slots))
  {
    forall i: nat | i < |symbols|
      ensures SlotOf(symbols, i, hash) == hash(symbols[i].name)
    {
    }
    hide SlotOf;
    if CollisionFree(symbols, hash) {
      forall k | 0 <= k < SIZE_MAP_SYMBOL && slots[k] != 0
        ensures exists i :: 0 <= i < |symbols| && hash(symbols[i].name) == k
      {
        var i: nat :| i < |symbols| && SlotOf(symbols, i, hash) == k;
        assert hash(symbols[i].name) == k;
      }
    }
  }

  /** Fill an empty table with all symbols; `failed` when two meet. */
  method FillTable(symbols: seq<Symbol>, hash: HashFunction) returns (failed: bool, table: SymbolTable)
    requires WellFormed(symbols)
    ensures table.hash == hash && table.Shaped()
    ensures failed <==> !CollisionFree(symbols, hash)
    ensures !failed ==> Perfect(symbols, table)
  {
    var slots: seq<nat> := seq(SIZE_MAP_SYMBOL, _ => 0);
    failed := false;
    EmptyIsFilled(symbols, hash, slots);
    hide *;
    for n: nat := 0 to |symbols|
      invariant |slots| == SIZE_MAP_SYMBOL && Filled(symbols, n, hash, slots)
      invariant failed <==> Meet(symbols, n, hash)
    {
      FillStep(symbols, n, hash, slots);
      var id := SlotOf(symbols, n, hash);
      if slots[id] == 0 {
        slots := slots[id := symbols[n].id];
      } else {
        failed := true;
      }
    }
    FilledIsPerfect(symbols, hash, slots);
    table := SymbolTable(hash, slots);
    assert table.Shaped() by { IsShaped(table); }
  }
}
