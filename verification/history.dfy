/**
 Move-history entries and the move-list ordering of `Game.sort()` in
 src/index.js. JavaScript's `Array.prototype.sort` is stable, so it is
 modelled as a stable insertion sort on the `move` field.
 */
module History {
  import opened Wrappers
  import opened Outcome

  /** `'asc'` or `'desc'` */
  datatype Order = Asc | Desc

  /** One history record: the board after the move, the cell played (None at game start), the move number. */
  datatype Entry = Entry(squares: Board, selectedSquare: Option<CellIndex>, move: nat)

  /** `a` may be listed before `b`: the comparator of `sort()` does not put `b` first. */
  predicate InOrder(order: Order, a: Entry, b: Entry) {
    if order == Asc then a.move <= b.move else a.move >= b.move
  }

  predicate Sorted(order: Order, s: seq<Entry>) {
    forall i, j :: 0 <= i < j < |s| ==> InOrder(order, s[i], s[j])
  }

  /** Move numbers strictly increase along `s`. */
  predicate StrictlyIncreasing(s: seq<Entry>) {
    forall i, j :: 0 <= i < j < |s| ==> s[i].move < s[j].move
  }

  /** Places `e` in front of the first element it may precede, so ahead of equal keys. */
  function Insert(order: Order, e: Entry, s: seq<Entry>): (r: seq<Entry>)
    ensures multiset(r) == multiset(s) + multiset{e}
    ensures |r| == |s| + 1
  {
    if |s| == 0 then [e]
    else if InOrder(order, e, s[0]) then [e] + s
    else
      assert s == [s[0]] + s[1..];
      [s[0]] + Insert(order, e, s[1..])
  }

  /** `x` may be listed before every element of `s`. */
  predicate Leads(order: Order, x: Entry, s: seq<Entry>) {
    forall i :: 0 <= i < |s| ==> InOrder(order, x, s[i])
  }

  lemma {:induction false} InsertLeads(order: Order, x: Entry, e: Entry, s: seq<Entry>)
    requires Leads(order, x, s) && InOrder(order, x, e)
    ensures Leads(order, x, Insert(order, e, s))
  {
    if |s| > 0 && !InOrder(order, e, s[0]) {
      InsertLeads(order, x, e, s[1..]);
    }
  }

  /** Inserting into an ordered sequence keeps it ordered. */
  lemma {:induction false} InsertSorted(order: Order, e: Entry, s: seq<Entry>)
    requires Sorted(order, s)
    ensures Sorted(order, Insert(order, e, s))
  {
    if |s| > 0 {
      if InOrder(order, e, s[0]) {
        assert Leads(order, e, s);
      } else {
        InsertSorted(order, e, s[1..]);
        assert InOrder(order, s[0], e);
        InsertLeads(order, s[0], e, s[1..]);
      }
    }
  }

  /** The move list of `sort()`: a stable ordering of `h` by move number. */
  function SortByMove(order: Order, h: seq<Entry>): (r: seq<Entry>)
    ensures multiset(r) == multiset(h)
    ensures |r| == |h|
    ensures Sorted(order, r)
  {
    if |h| == 0 then []
    else
      assert h == [h[0]] + h[1..];
      var t := SortByMove(order, h[1..]);
      InsertSorted(order, h[0], t);
      Insert(order, h[0], t)
  }

  function Reverse(s: seq<Entry>): (r: seq<Entry>)
    ensures |r| == |s|
    ensures forall i :: 0 <= i < |s| ==> r[i] == s[|s| - 1 - i]
  {
    if |s| == 0 then [] else Reverse(s[1..]) + [s[0]]
  }

  /** Stability: sorting an already ordered sequence changes nothing. */
  lemma {:induction false} SortSortedIsIdentity(order: Order, h: seq<Entry>)
    requires Sorted(order, h)
    ensures SortByMove(order, h) == h
  {
    if |h| > 0 {
      SortSortedIsIdentity(order, h[1..]);
      if |h| > 1 {
        assert InOrder(order, h[0], h[1]);
      }
      assert h == [h[0]] + h[1..];
    }
  }

  /** An element that may precede nothing in `s` goes to the end. */
  lemma {:induction false} InsertAtEnd(order: Order, e: Entry, s: seq<Entry>)
    requires forall i :: 0 <= i < |s| ==> !InOrder(order, e, s[i])
    ensures Insert(order, e, s) == s + [e]
  {
    if |s| > 0 {
      InsertAtEnd(order, e, s[1..]);
      assert s == [s[0]] + s[1..];
    }
  }

  lemma StrictlyIncreasingTail(h: seq<Entry>)
    requires StrictlyIncreasing(h) && |h| > 0
    ensures StrictlyIncreasing(h[1..])
  {
    var tail := h[1..];
    forall i, j | 0 <= i < j < |tail| ensures tail[i].move < tail[j].move {
      assert tail[i] == h[i + 1] && tail[j] == h[j + 1];
    }
  }

  /** The head of a strictly increasing history may follow every later entry in descending order. */
  lemma HeadBelowReversedTail(h: seq<Entry>)
    requires StrictlyIncreasing(h) && |h| > 0
    ensures forall i :: 0 <= i < |h| - 1 ==> !InOrder(Desc, h[0], Reverse(h[1..])[i])
  {
    var tail := h[1..];
    var t := Reverse(tail);
    forall i | 0 <= i < |t|
      ensures !InOrder(Desc, h[0], t[i])
    {
      assert t[i] == tail[|tail| - 1 - i];
      assert tail[|tail| - 1 - i] == h[|h| - 1 - i];
    }
  }

  /** With strictly increasing move numbers, the descending move list is the history reversed. */
  lemma {:induction false} SortDescIsReverse(h: seq<Entry>)
    requires StrictlyIncreasing(h)
    ensures SortByMove(Desc, h) == Reverse(h)
  {
    if |h| > 0 {
      StrictlyIncreasingTail(h);
      SortDescIsReverse(h[1..]);
      HeadBelowReversedTail(h);
      InsertAtEnd(Desc, h[0], Reverse(h[1..]));
    }
  }

  /** With strictly increasing move numbers, the ascending move list is the history itself. */
  lemma SortAscIsIdentity(h: seq<Entry>)
    requires StrictlyIncreasing(h)
    ensures SortByMove(Asc, h) == h
  {
    SortSortedIsIdentity(Asc, h);
  }
}
