/**
 The rolling mirror of append-only tables: rows with an id above the largest mirrored one
 are copied in id order, batch by batch, each batch in one transaction. Tables without an
 integer id column are skipped.
 */
module Mirror {

  datatype Row = Row(id: int, body: string)

  /** A table in id order; ids are positive. */
  ghost predicate Table(rows: seq<Row>) {
    && (forall i :: 0 <= i < |rows| ==> rows[i].id > 0)
    && (forall i, j :: 0 <= i < j < |rows| ==> rows[i].id < rows[j].id)
  }

  /** How many rows have an id up to `last`. */
  function From(rows: seq<Row>, last: int): (n: nat)
    ensures n <= |rows|
  {
    if rows == [] then 0 else if rows[|rows| - 1].id <= last then |rows| else From(rows[..|rows| - 1], last)
  }

  lemma {:induction false} FromSound(rows: seq<Row>, last: int, i: nat)
    requires Table(rows) && i < |rows|
    ensures i < From(rows, last) <==> rows[i].id <= last
  {
    if rows[|rows| - 1].id > last && i < |rows| - 1 {
      FromSound(rows[..|rows| - 1], last, i);
    }
  }

  /** Id of the k-th row: the cursor with exactly k rows at or below it. */
  function IdAt(rows: seq<Row>, k: nat): (id: int)
    requires Table(rows) && 0 < k <= |rows|
    ensures From(rows, id) == k && id == rows[k - 1].id
  {
    var id, n := rows[k - 1].id, From(rows, rows[k - 1].id);
    FromSound(rows, id, k - 1);
    if k < n then
      FromSound(rows, id, k);
      id
    else id
  }

  /** End of a page of at most n rows that begins at row i. */
  function PageEnd(rows: seq<Row>, i: nat, n: nat): (j: nat)
    requires i <= |rows|
    ensures i <= j <= |rows| && j - i <= n
  {
    if |rows| - i <= n then |rows| else i + n
  }

  /** SELECT ... WHERE id > last ORDER BY id LIMIT n. */
  function Select(rows: seq<Row>, last: int, n: nat): (page: seq<Row>)
    ensures |page| == PageEnd(rows, From(rows, last), n) - From(rows, last)
  {
    rows[From(rows, last)..PageEnd(rows, From(rows, last), n)]
  }

  /** INSERT OR IGNORE of one row, and of a batch. */
  function Insert(dst: map<int, string>, r: Row): map<int, string> {
    if r.id in dst then dst else dst[r.id := r.body]
  }

  /** Rows i up to j in order. */
  function InsertRange(dst: map<int, string>, rows: seq<Row>, i: nat, j: nat): map<int, string>
    requires i <= j <= |rows|
    decreases j
  {
    if i == j then dst else Insert(InsertRange(dst, rows, i, j - 1), rows[j - 1])
  }

  lemma {:induction false} RangesJoin(dst: map<int, string>, rows: seq<Row>, i: nat, j: nat, k: nat)
    requires i <= j <= k <= |rows|
    ensures InsertRange(InsertRange(dst, rows, i, j), rows, j, k) == InsertRange(dst, rows, i, k)
    decreases k
  {
    if j < k { RangesJoin(dst, rows, i, j, k - 1); }
  }

  ghost predicate IsMax(dst: map<int, string>, m: int) {
    && (forall id :: id in dst ==> id <= m)
    && (if dst == map[] then m == 0 else m in dst)
  }

  lemma {:induction false} MaxExists(ids: set<int>)
    requires ids != {}
    ensures exists m :: m in ids && forall x :: x in ids ==> x <= m
  {
    if forall x :: x !in ids { assert false; }
    var x :| x in ids;
    if ids == {x} {
    } else {
      MaxExists(ids - {x});
      var m :| m in ids - {x} && forall y :: y in ids - {x} ==> y <= m;
      var most := if x > m then x else m;
      assert most in ids;
      forall y | y in ids ensures y <= most { assert y == x || y in ids - {x}; }
    }
  }

  /** SELECT COALESCE(MAX(id), 0). */
  function MaxId(dst: map<int, string>): (m: int)
    ensures IsMax(dst, m)
  {
    if dst == map[] then 0
    else
      assert dst.Keys != {};
      MaxExists(dst.Keys);
      var m :| m in dst.Keys && forall x :: x in dst.Keys ==> x <= m;
      m
  }

  /** The batch loop from row i on, with n rows copied before. */
  function Copy(dst: map<int, string>, src: seq<Row>, i: nat, batch: nat, n: nat): (map<int, string>, nat)
    requires i <= |src| && batch > 0
    decreases |src| - i
  {
    var j := PageEnd(src, i, batch);
    if j == i then (dst, n)
    else if j - i < batch then (InsertRange(dst, src, i, j), n + (j - i))
    else Copy(InsertRange(dst, src, i, j), src, j, batch, n + (j - i))
  }

  /** Whatever the batch size, the loop copies exactly the rows above the cursor. */
  lemma {:induction false} CopyIsRest(dst: map<int, string>, src: seq<Row>, i: nat, batch: nat, n: nat)
    requires i <= |src| && batch > 0
    ensures Copy(dst, src, i, batch, n) == (InsertRange(dst, src, i, |src|), n + |src| - i)
    decreases |src| - i
  {
    var j := PageEnd(src, i, batch);
    if j - i == batch {
      CopyIsRest(InsertRange(dst, src, i, j), src, j, batch, n + (j - i));
      RangesJoin(dst, src, i, j, |src|);
    }
  }

  class Archive {
    var dst: map<int, string>

    constructor ()
      ensures dst == map[]
    {
      dst := map[];
    }

    /** One transaction. */
    method InsertBatch(src: seq<Row>, i: nat, j: nat)
      requires i <= j <= |src|
      modifies this
      ensures dst == InsertRange(old(dst), src, i, j)
    {
      for k := i to j
        invariant dst == InsertRange(old(dst), src, i, k)
      {
        if src[k].id !in dst { dst := dst[src[k].id := src[k].body]; }
      }
    }

    /** One pass over a source table that does not change meanwhile; the program's batch size is 5000. */
    method CopyTable(src: seq<Row>, hasId: bool, batch: nat) returns (copied: nat)
      requires Table(src) && batch > 0
      modifies this
      ensures !hasId ==> copied == 0 && dst == old(dst)
      ensures hasId ==> (dst, copied) == Copy(old(dst), src, From(src, MaxId(old(dst))), batch, 0)
      ensures hasId ==> copied == |src| - From(src, MaxId(old(dst)))
      ensures hasId ==> dst == InsertRange(old(dst), src, From(src, MaxId(old(dst))), |src|)
    {
      copied := 0;
      if !hasId { return; }
      var lastId := MaxId(dst);
      var i := From(src, lastId);
      ghost var first := i;
      while true
        invariant first <= i == From(src, lastId)
        invariant dst == InsertRange(old(dst), src, first, i) && copied == i - first
        decreases |src| - i
      {
        var rows := Select(src, lastId, batch);
        var j := i + |rows|;
        if |rows| == 0 { break; }
        RangesJoin(old(dst), src, first, i, j);
        InsertBatch(src, i, j);
        copied := copied + |rows|;
        lastId, i := IdAt(src, j), j;
        if |rows| < batch { break; }
      }
      CopyIsRest(old(dst), src, first, batch, 0);
    }
  }
}
