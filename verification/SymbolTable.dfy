/** The table that turns ticker symbols into symbol ids, indexed by a packed hash. */
module SymbolTable {
  import Bits

  const TABLE_SIZE: nat := 880000
  const WORD: nat := 0x1_0000_0000

  /** The code of the upper-case form of an ASCII character. */
  function ToUpper(c: char): nat {
    if 'a' <= c <= 'z' then c as nat - 32 else c as nat
  }

  predicate IsLetter(c: char) {
    'A' <= c <= 'Z' || 'a' <= c <= 'z'
  }

  /** The place of a letter in the alphabet, from 1, whatever its case. */
  function Rank(c: char): nat
    requires IsLetter(c)
  {
    if 'a' <= c then c as nat - 'a' as nat + 1 else c as nat - 'A' as nat + 1
  }

  /** A symbol that begins with letters, as far as the hash reads it: four characters, or all if there are fewer. */
  predicate IsTicker(s: string) {
    forall i :: 0 <= i < |s| && i < 4 ==> IsLetter(s[i])
  }

  /** The same first four characters up to case. */
  predicate SameTicker(s: string, t: string) {
    && (|s| == |t| || (|s| >= 4 && |t| >= 4))
    && forall i :: 0 <= i < |s| && i < 4 ==> SameLetter(s[i], t[i])
  }

  predicate SameLetter(c: char, d: char) {
    c == d || (IsLetter(c) && IsLetter(d) && Rank(c) == Rank(d))
  }

  /** What position `i` contributes: 1 to 26 for a letter, 0 past the end, a wrapped number for what sorts below `A`. */
  function Digit(s: string, i: nat): nat {
    if i < |s| then (ToUpper(s[i]) - 64) % WORD else 0
  }

  function HashUpTo(s: string, n: nat): nat {
    if n == 0 then 0 else Bits.Or((HashUpTo(s, n - 1) * 32) % WORD, Digit(s, n - 1))
  }

  function Hash(s: string): nat {
    HashUpTo(s, 4)
  }

  lemma {:induction false} DigitRange(s: string, i: nat)
    requires IsTicker(s) && i < 4
    ensures Digit(s, i) <= 26 && (Digit(s, i) == 0 <==> i >= |s|)
    ensures i < |s| ==> Digit(s, i) == Rank(s[i])
  {
    if i < |s| {
      assert IsLetter(s[i]);
    }
  }

  /** On tickers nothing wraps and the digits never overlap, so the hash is a number in base 32. */
  lemma {:induction false} HashStep(s: string, n: nat)
    requires IsTicker(s) && n < 4 && HashUpTo(s, n) < 32768
    ensures HashUpTo(s, n + 1) == 32 * HashUpTo(s, n) + Digit(s, n)
  {
    var h := HashUpTo(s, n);
    DigitRange(s, n);
    assert (h * 32) % WORD == 32 * h;
    Bits.OrAdds(h, Digit(s, n));
  }

  /** Every ticker's hash indexes the table. */
  lemma {:induction false} HashInTable(s: string)
    requires IsTicker(s)
    ensures Hash(s) == 32768 * Digit(s, 0) + 1024 * Digit(s, 1) + 32 * Digit(s, 2) + Digit(s, 3)
    ensures Hash(s) <= 879450 < TABLE_SIZE
  {
    DigitRange(s, 0);
    DigitRange(s, 1);
    DigitRange(s, 2);
    DigitRange(s, 3);
    assert HashUpTo(s, 0) == 0;
    HashStep(s, 0);
    HashStep(s, 1);
    HashStep(s, 2);
    HashStep(s, 3);
  }

  lemma {:induction false} LastDigit(h: nat, d: nat, h': nat, d': nat)
    requires d < 32 && d' < 32 && 32 * h + d == 32 * h' + d'
    ensures h == h' && d == d'
  {
  }

  lemma {:induction false} SameDigits(s: string, t: string)
    requires IsTicker(s) && IsTicker(t) && Hash(s) == Hash(t)
    ensures forall i :: 0 <= i < 4 ==> Digit(s, i) == Digit(t, i)
  {
    HashInTable(s);
    HashInTable(t);
    forall i: nat | i < 4
      ensures Digit(s, i) < 32 && Digit(t, i) < 32
    {
      DigitRange(s, i);
      DigitRange(t, i);
    }
    var s1, t1 := 32 * Digit(s, 0) + Digit(s, 1), 32 * Digit(t, 0) + Digit(t, 1);
    LastDigit(32 * s1 + Digit(s, 2), Digit(s, 3), 32 * t1 + Digit(t, 2), Digit(t, 3));
    LastDigit(s1, Digit(s, 2), t1, Digit(t, 2));
    LastDigit(Digit(s, 0), Digit(s, 1), Digit(t, 0), Digit(t, 1));
  }

  lemma {:induction false} NoLonger(s: string, t: string)
    requires IsTicker(s) && IsTicker(t) && Hash(s) == Hash(t)
    ensures |t| <= |s| || |s| >= 4
  {
    if |s| < |t| && |s| < 4 {
      SameDigits(s, t);
      DigitRange(s, |s|);
      DigitRange(t, |s|);
    }
  }

  /** Two symbols of letters collide exactly if their first four agree up to case. */
  lemma {:induction false} HashIsExact(s: string, t: string)
    requires IsTicker(s) && IsTicker(t)
    ensures Hash(s) == Hash(t) <==> SameTicker(s, t)
  {
    if SameTicker(s, t) {
      HashInTable(s);
      HashInTable(t);
      forall i: nat | i < 4
        ensures Digit(s, i) == Digit(t, i)
      {
        DigitRange(s, i);
        DigitRange(t, i);
      }
    }
    if Hash(s) == Hash(t) {
      NoLonger(s, t);
      NoLonger(t, s);
      SameDigits(s, t);
      forall i | 0 <= i < |s| && i < 4
        ensures SameLetter(s[i], t[i])
      {
        DigitRange(s, i);
        DigitRange(t, i);
      }
    }
  }

  method FindHash(s: string) returns (h: nat)
    ensures h == Hash(s)
  {
    h := 0;
    for i := 0 to 4
      invariant h == HashUpTo(s, i)
    {
      var digit := 0;
      if i < |s| {
        digit := (ToUpper(s[i]) - 64) % WORD;
      }
      h := Bits.Or((h * 32) % WORD, digit);
    }
  }

  // ----- Loading and looking up ---------------------------------------------------------------

  datatype Listing = Listing(symbol: string, id: int)

  /** The id last listed under the hash of `s`, or -1. */
  function Lookup(rows: seq<Listing>, s: string): int {
    if |rows| == 0 then -1
    else if Hash(rows[|rows| - 1].symbol) == Hash(s) then rows[|rows| - 1].id
    else Lookup(rows[..|rows| - 1], s)
  }

  /** The id last listed for a symbol with the same first four letters as `s`, or -1. */
  function TickerId(rows: seq<Listing>, s: string): int {
    if |rows| == 0 then -1
    else if SameTicker(rows[|rows| - 1].symbol, s) then rows[|rows| - 1].id
    else TickerId(rows[..|rows| - 1], s)
  }

  /** For symbols of letters the table tells apart exactly the first four of them. */
  lemma {:induction false} LookupIsByTicker(rows: seq<Listing>, s: string)
    requires IsTicker(s) && forall i :: 0 <= i < |rows| ==> IsTicker(rows[i].symbol)
    ensures Lookup(rows, s) == TickerId(rows, s)
  {
    if |rows| > 0 {
      HashIsExact(rows[|rows| - 1].symbol, s);
      LookupIsByTicker(rows[..|rows| - 1], s);
    }
  }

  /** The table answers for every symbol that indexes it as the rows do. */
  ghost predicate Answers(table: seq<int>, rows: seq<Listing>) {
    && |table| == TABLE_SIZE
    && forall s {:trigger Lookup(rows, s)} :: Hash(s) < TABLE_SIZE ==> table[Hash(s)] == Lookup(rows, s)
  }

  lemma {:induction false} AnswersOneMore(table: seq<int>, rows: seq<Listing>, row: Listing)
    requires Answers(table, rows) && Hash(row.symbol) < TABLE_SIZE
    ensures Answers(table[Hash(row.symbol) := row.id], rows + [row])
  {
    var rows' := rows + [row];
    var table' := table[Hash(row.symbol) := row.id];
    assert rows'[..|rows|] == rows;
    forall s | Hash(s) < TABLE_SIZE
      ensures table'[Hash(s)] == Lookup(rows', s)
    {
      assert table[Hash(s)] == Lookup(rows, s);
    }
  }

  /**
   Clears the table, then enters every listed symbol; no write is outside the table exactly if every listed
   hash is inside.
   */
  method Load(table: array<int>, rows: seq<Listing>)
    requires table.Length == TABLE_SIZE && forall i :: 0 <= i < |rows| ==> Hash(rows[i].symbol) < TABLE_SIZE
    modifies table
    ensures Answers(table[..], rows)
  {
    for i := 0 to TABLE_SIZE
      invariant forall k :: 0 <= k < i ==> table[k] == -1
    {
      table[i] := -1;
    }
    for i := 0 to |rows|
      invariant Answers(table[..], rows[..i])
    {
      var h := FindHash(rows[i].symbol);
      AnswersOneMore(table[..], rows[..i], rows[i]);
      assert rows[..i] + [rows[i]] == rows[..i + 1];
      table[h] := rows[i].id;
    }
    assert rows[..|rows|] == rows;
  }

  /** Answers as the rows do, -1 for a hash outside the table; no symbol at all reads outside it. */
  method FindId(table: array<int>, s: string, ghost rows: seq<Listing>) returns (id: int)
    requires Answers(table[..], rows)
    ensures id == if Hash(s) < TABLE_SIZE then Lookup(rows, s) else -1
    ensures IsTicker(s) && (forall i :: 0 <= i < |rows| ==> IsTicker(rows[i].symbol)) ==> id == TickerId(rows, s)
  {
    var h := FindHash(s);
    if h >= TABLE_SIZE {
      id := -1;
    } else {
      id := table[h];
    }
    assert id == if Hash(s) < TABLE_SIZE then Lookup(rows, s) else -1;
    if IsTicker(s) && forall i :: 0 <= i < |rows| ==> IsTicker(rows[i].symbol) {
      HashInTable(s);
      LookupIsByTicker(rows, s);
    }
  }
}
