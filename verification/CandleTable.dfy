/** The key column of a candle table: the start times stored for one instrument. */
module CandleTable {

  import opened Wrappers

  function Rows(rows: seq<int>): set<int> {
    if rows == [] then {} else Rows(rows[..|rows| - 1]) + {rows[|rows| - 1]}
  }

  lemma {:induction false} LeastExists(s: set<int>)
    requires s != {}
    ensures exists m :: m in s && forall x :: x in s ==> m <= x
  {
    if forall x :: x !in s { assert false; }
    var x :| x in s;
    if s == {x} {
    } else {
      LeastExists(s - {x});
      var m :| m in s - {x} && forall y :: y in s - {x} ==> m <= y;
      var least := if x < m then x else m;
      assert least in s;
      forall y | y in s ensures least <= y { assert y == x || y in s - {x}; }
    }
  }

  /** SELECT MIN(start_unix): the oldest stored row, if there is one. */
  ghost predicate IsOldest(stored: set<int>, oldest: Option<int>) {
    match oldest
    case None => stored == {}
    case Some(m) => m in stored && forall x :: x in stored ==> m <= x
  }

  function OldestRow(stored: set<int>): (oldest: Option<int>)
    ensures IsOldest(stored, oldest)
  {
    if stored == {} then None
    else
      LeastExists(stored);
      var m :| m in stored && forall x :: x in stored ==> m <= x;
      Some(m)
  }

  lemma {:induction false} RowsIn(rows: seq<int>, x: int)
    ensures x in Rows(rows) <==> x in rows
  {
    if rows == [] {
    } else {
      var init, last := rows[..|rows| - 1], rows[|rows| - 1];
      assert rows == init + [last];
      RowsIn(init, x);
    }
  }

  /** How many of the rows are new to the table, each counted once. */
  function NewRows(stored: set<int>, rows: seq<int>): nat {
    if rows == [] then 0
    else
      var init, last := rows[..|rows| - 1], rows[|rows| - 1];
      NewRows(stored, init) + if last in stored || last in Rows(init) then 0 else 1
  }

  lemma {:induction false} NewRowsGrow(stored: set<int>, rows: seq<int>)
    ensures |stored + Rows(rows)| == |stored| + NewRows(stored, rows)
  {
    if rows == [] {
      assert stored + {} == stored;
    } else {
      var init, last := rows[..|rows| - 1], rows[|rows| - 1];
      NewRowsGrow(stored, init);
      OneRowMore(stored + Rows(init), last);
      assert stored + Rows(rows) == stored + Rows(init) + {last};
    }
  }

  lemma OneRowMore(s: set<int>, x: int)
    ensures |s + {x}| == |s| + if x in s then 0 else 1
  {
    if x in s { assert s + {x} == s; }
  }

  lemma RowsSplit(avail: seq<int>, lo: nat, mid: nat, hi: nat)
    requires lo <= mid <= hi <= |avail|
    ensures Rows(avail[lo..hi]) == Rows(avail[lo..mid]) + Rows(avail[mid..hi])
  {
    assert avail[lo..hi] == avail[lo..mid] + avail[mid..hi];
    forall x ensures x in Rows(avail[lo..hi]) <==> x in Rows(avail[lo..mid]) || x in Rows(avail[mid..hi]) {
      RowsIn(avail[lo..hi], x);
      RowsIn(avail[lo..mid], x);
      RowsIn(avail[mid..hi], x);
    }
  }

  class Table {
    var stored: set<int>

    constructor ()
      ensures stored == {}
    {
      stored := {};
    }

    /** One transaction of INSERT OR IGNORE; the result counts the rows that were new. */
    method InsertBatch(rows: seq<int>) returns (inserted: nat)
      modifies this
      ensures stored == old(stored) + Rows(rows)
      ensures inserted == |stored| - |old(stored)|
    {
      inserted := 0;
      var k := 0;
      while k < |rows|
        invariant 0 <= k <= |rows|
        invariant stored == old(stored) + Rows(rows[..k])
        invariant inserted == |stored| - |old(stored)|
      {
        assert rows[..k + 1][..k] == rows[..k];
        if rows[k] !in stored {
          stored := stored + {rows[k]};
          inserted := inserted + 1;
        }
        k := k + 1;
      }
      assert rows[..k] == rows;
    }
  }
}
