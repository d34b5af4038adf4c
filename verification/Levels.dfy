/**
 A book kept as one queue per price, and how the two sorted lists of the reference are read
 off it: asks from the lowest price upwards, bids from the highest price downwards.
 */
module Levels {
  import opened Market
  import opened Reference

  /** The queue if it belongs to `side`, nothing otherwise. */
  function Part(side: Side, q: seq<Order>): seq<Order> {
    if q != [] && q[0].side == side then q else []
  }

  function Flat(side: Side, book: seq<seq<Order>>): seq<Order> {
    if book == [] then []
    else if side == Sell then Part(side, book[0]) + Flat(side, book[1..])
    else Flat(side, book[1..]) + Part(side, book[0])
  }

  /** Everything of `side` at prices better than level `i`. */
  function Front(side: Side, book: seq<seq<Order>>, i: nat): seq<Order>
    requires i < |book|
  {
    Flat(side, if side == Sell then book[..i] else book[i + 1..])
  }

  /** Everything of `side` at prices worse than level `i`. */
  function Back(side: Side, book: seq<seq<Order>>, i: nat): seq<Order>
    requires i < |book|
  {
    Flat(side, if side == Sell then book[i + 1..] else book[..i])
  }

  /** A level holds orders at its own price only, all of one side. */
  ghost predicate TidyLevel(price: int, q: seq<Order>) {
    forall k :: 0 <= k < |q| ==> q[k].price == price && q[k].side == q[0].side
  }

  ghost predicate Tidy(lower: nat, book: seq<seq<Order>>) {
    forall i {:trigger TidyAt(lower, book, i)} :: 0 <= i < |book| ==> TidyAt(lower, book, i)
  }

  ghost predicate TidyAt(lower: nat, book: seq<seq<Order>>, i: nat)
    requires i < |book|
  {
    TidyLevel(lower + i, book[i])
  }

  lemma {:induction false} TidySuffix(lower: nat, book: seq<seq<Order>>, i: nat)
    requires Tidy(lower, book) && i <= |book|
    ensures Tidy(lower + i, book[i..])
  {
    var rest, lower' := book[i..], lower + i;
    forall j | 0 <= j < |rest|
      ensures TidyAt(lower', rest, j)
    {
      assert TidyAt(lower, book, i + j);
    }
  }

  lemma {:induction false} TidyPrefix(lower: nat, book: seq<seq<Order>>, i: nat)
    requires Tidy(lower, book) && i <= |book|
    ensures Tidy(lower, book[..i])
  {
    var rest := book[..i];
    forall j | 0 <= j < |rest|
      ensures TidyAt(lower, rest, j)
    {
      assert TidyAt(lower, book, j);
    }
  }

  lemma {:induction false} FlatConcat(side: Side, a: seq<seq<Order>>, b: seq<seq<Order>>)
    ensures Flat(side, a + b) == if side == Sell then Flat(side, a) + Flat(side, b) else Flat(side, b) + Flat(side, a)
    decreases |a|
  {
    if a == [] {
      assert a + b == b;
    } else {
      assert (a + b)[1..] == a[1..] + b;
      FlatConcat(side, a[1..], b);
    }
  }

  lemma {:induction false} FlatSplit(side: Side, book: seq<seq<Order>>, i: nat)
    requires i < |book|
    ensures Flat(side, book) == Front(side, book, i) + Part(side, book[i]) + Back(side, book, i)
  {
    assert book == book[..i] + ([book[i]] + book[i + 1..]);
    FlatConcat(side, book[..i], [book[i]] + book[i + 1..]);
    FlatConcat(side, [book[i]], book[i + 1..]);
    assert Flat(side, [book[i]]) == Part(side, book[i]);
  }

  /** Changing one level changes one segment of the flat list. */
  lemma {:induction false} FlatUpdate(side: Side, book: seq<seq<Order>>, i: nat, q: seq<Order>)
    requires i < |book|
    ensures Flat(side, book[i := q]) == Front(side, book, i) + Part(side, q) + Back(side, book, i)
  {
    var book' := book[i := q];
    assert book'[..i] == book[..i] && book'[i + 1..] == book[i + 1..];
    FlatSplit(side, book', i);
  }

  /** Orders of a flat list come from its levels. */
  lemma {:induction false} FlatMember(side: Side, lower: nat, book: seq<seq<Order>>, x: Order)
    requires Tidy(lower, book) && x in Flat(side, book)
    ensures x.side == side && lower <= x.price < lower + |book| && x in book[x.price - lower]
    decreases |book|
  {
    assert TidyAt(lower, book, 0);
    if x in Part(side, book[0]) {
      var k :| 0 <= k < |book[0]| && book[0][k] == x;
    } else {
      TidySuffix(lower, book, 1);
      FlatMember(side, lower + 1, book[1..], x);
    }
  }

  /** Better prices stand in front of level `i`, worse ones behind it. */
  lemma {:induction false} FrontAndBack(side: Side, lower: nat, book: seq<seq<Order>>, i: nat)
    requires i < |book| && Tidy(lower, book)
    ensures forall x :: x in Front(side, book, i) ==> Key(side, x.price) < Key(side, lower + i)
    ensures forall x :: x in Back(side, book, i) ==> Key(side, lower + i) < Key(side, x.price)
  {
    forall x | x in Flat(side, book[..i])
      ensures x.price < lower + i
    {
      TidyPrefix(lower, book, i);
      FlatMember(side, lower, book[..i], x);
    }
    forall x | x in Flat(side, book[i + 1..])
      ensures lower + i < x.price
    {
      TidySuffix(lower, book, i + 1);
      FlatMember(side, lower + i + 1, book[i + 1..], x);
    }
  }

  lemma {:induction false} FlatSame(side: Side, book: seq<seq<Order>>, i: nat, q: seq<Order>)
    requires i < |book| && Part(side, book[i]) == Part(side, q)
    ensures Flat(side, book[i := q]) == Flat(side, book)
  {
    FlatUpdate(side, book, i, q);
    FlatSplit(side, book, i);
  }

  lemma {:induction false} Regroup<T>(f: seq<T>, q1: seq<T>, mid: seq<T>, q2: seq<T>, b: seq<T>)
    ensures f + (q1 + mid + q2) + b == (f + q1) + mid + (q2 + b)
  {
  }

  lemma {:induction false} InsertBehindLevel(side: Side, f: seq<Order>, q: seq<Order>, b: seq<Order>, o: Order)
    requires forall x :: x in f ==> Key(side, x.price) < Key(side, o.price)
    requires forall x :: x in q ==> x.price == o.price
    requires forall x :: x in b ==> Key(side, o.price) < Key(side, x.price)
    ensures Insert(side, f + q + b, o) == f + (q + [o]) + b
  {
    InsertPlace(side, f + q, b, o);
    assert f + q + [o] == f + (q + [o]);
  }

  /** Queueing at a level is inserting into the sorted list. */
  lemma {:induction false} FlatInsert(side: Side, lower: nat, book: seq<seq<Order>>, i: nat, o: Order)
    requires i < |book| && Tidy(lower, book)
    requires o.side == side && o.price == lower + i && (book[i] == [] || book[i][0].side == side)
    ensures Flat(side, book[i := book[i] + [o]]) == Insert(side, Flat(side, book), o)
  {
    var q := book[i];
    FlatUpdate(side, book, i, q + [o]);
    FlatSplit(side, book, i);
    FrontAndBack(side, lower, book, i);
    assert Part(side, q) == q && Part(side, q + [o]) == q + [o] && TidyAt(lower, book, i);
    InsertBehindLevel(side, Front(side, book, i), q, Back(side, book, i), o);
  }

  /** The flat list around the order at place `k` of level `i`. */
  function Ahead(side: Side, book: seq<seq<Order>>, i: nat, k: nat): seq<Order>
    requires i < |book| && k < |book[i]|
  {
    Front(side, book, i) + book[i][..k]
  }

  function Behind(side: Side, book: seq<seq<Order>>, i: nat, k: nat): seq<Order>
    requires i < |book| && k < |book[i]|
  {
    book[i][k + 1..] + Back(side, book, i)
  }

  lemma {:induction false} FlatAt(side: Side, book: seq<seq<Order>>, i: nat, k: nat)
    requires i < |book| && k < |book[i]| && side == book[i][0].side
    ensures Flat(side, book) == Ahead(side, book, i, k) + [book[i][k]] + Behind(side, book, i, k)
  {
    var q := book[i];
    FlatSplit(side, book, i);
    assert q == q[..k] + [q[k]] + q[k + 1..];
    Regroup(Front(side, book, i), q[..k], [q[k]], q[k + 1..], Back(side, book, i));
  }

  /** Replacing one queued order by `mid` does the same to the flat list of its side. */
  lemma {:induction false} FlatReplace(side: Side, book: seq<seq<Order>>, i: nat, k: nat, mid: seq<Order>)
    requires i < |book| && k < |book[i]| && side == book[i][0].side
    requires var q' := book[i][..k] + mid + book[i][k + 1..]; Part(side, q') == q'
    ensures Flat(side, book[i := book[i][..k] + mid + book[i][k + 1..]])
         == Ahead(side, book, i, k) + mid + Behind(side, book, i, k)
  {
    var q := book[i];
    FlatUpdate(side, book, i, q[..k] + mid + q[k + 1..]);
    Regroup(Front(side, book, i), q[..k], mid, q[k + 1..], Back(side, book, i));
  }

  lemma {:induction false} FlatEmpty(side: Side, book: seq<seq<Order>>)
    requires forall j :: 0 <= j < |book| ==> Part(side, book[j]) == []
    ensures Flat(side, book) == []
    decreases |book|
  {
    if book != [] {
      FlatEmpty(side, book[1..]);
    }
  }

  lemma {:induction false} FrontEmpty(side: Side, book: seq<seq<Order>>, i: nat)
    requires i < |book|
    requires forall j :: 0 <= j < |book| && Key(side, j) < Key(side, i) ==> Part(side, book[j]) == []
    ensures Front(side, book, i) == []
  {
    if side == Sell {
      FlatEmpty(side, book[..i]);
    } else {
      FlatEmpty(side, book[i + 1..]);
    }
  }

  /** If no better level is occupied, the flat list starts with the head of level `i`. */
  lemma {:induction false} FlatHead(side: Side, book: seq<seq<Order>>, i: nat)
    requires i < |book| && Part(side, book[i]) != [] && Front(side, book, i) == []
    ensures Flat(side, book) != [] && Flat(side, book)[0] == book[i][0]
  {
    FlatSplit(side, book, i);
  }
}
