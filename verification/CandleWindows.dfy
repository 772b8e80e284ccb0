/**
 The historical candle backfill: request windows of 350 granularities walk back from the
 earliest known candle to `since`, one second apart. A failed request is retried, three empty
 pages in a row stop the walk, and the meta row is only written when the walk ends by itself.
 */
module CandleWindows {

  import opened CandleTable
  import opened Wrappers

  const MAX_CANDLES := 350

  function Span(g: nat): nat {
    MAX_CANDLES * g
  }

  /** Seconds start up to end, both included. */
  datatype Window = Window(start: int, end: int) {
    predicate Holds(t: int) {
      start <= t <= end
    }
  }

  function WindowAt(since: int, g: nat, end: int): Window {
    Window(if end - Span(g) >= since then end - Span(g) else since, end)
  }

  datatype Reply = Fails | Page(rows: seq<int>)

  /** Killed: the replies end before the walk does. */
  datatype Stop = ReachedSince | ThreeEmpty | Killed

  datatype Walked = Walked(windows: seq<Window>, stored: set<int>, stop: Stop)

  /** The loop, with the windows answered and the rows stored so far. */
  function Walk(since: int, g: nat, end: int, replies: seq<Reply>, empties: nat, windows: seq<Window>, stored: set<int>)
    : Walked
    decreases |replies|
  {
    if end <= since then Walked(windows, stored, ReachedSince)
    else if replies == [] then Walked(windows, stored, Killed)
    else
      match replies[0]
      case Fails => Walk(since, g, end, replies[1..], empties, windows, stored)
      case Page(rows) =>
        var w := WindowAt(since, g, end);
        if |rows| > 0 then Walk(since, g, w.start - 1, replies[1..], 0, windows + [w], stored + Rows(rows))
        else if empties >= 2 then Walked(windows + [w], stored, ThreeEmpty)
        else Walk(since, g, w.start - 1, replies[1..], empties + 1, windows + [w], stored)
  }

  /** The candles of one asset and the oldest candle its meta row names, as the database holds them between runs. */
  datatype Db = Db(stored: set<int>, meta: Option<int>) {
    /** Where a run starts: at the meta row if there is one, else at the clock. */
    function Earliest(now: int): int {
      if meta.Some? then meta.value else now
    }
  }

  /** A killed run keeps its rows and leaves the meta row as it was. */
  function AfterRun(db: Db, now: int, since: int, g: nat, replies: seq<Reply>): Db {
    var w := Walk(since, g, db.Earliest(now), replies, 0, [], db.stored);
    Db(w.stored, if w.stop == Killed then db.meta else OldestRow(w.stored))
  }

  class CandleDb {
    const table: Table
    var meta: Option<int>

    constructor ()
      ensures fresh(table) && table.stored == {} && meta == None
    {
      table := new Table();
      meta := None;
    }

    function State(): Db
      reads this, table
    {
      Db(table.stored, meta)
    }

    method BackfillAsset(now: int, since: int, g: nat, replies: seq<Reply>)
      returns (windows: seq<Window>, inserted: nat, stop: Stop)
      modifies this, table
      ensures Walked(windows, table.stored, stop)
           == Walk(since, g, old(State()).Earliest(now), replies, 0, [], old(table.stored))
      ensures inserted == |table.stored| - |old(table.stored)|
      ensures State() == AfterRun(old(State()), now, since, g, replies)
      ensures stop != Killed ==> IsOldest(table.stored, meta)
    {
      var cursorEnd := if meta.Some? then meta.value else now;
      var window := WindowAt(since, g, cursorEnd);
      ghost var whole := Walk(since, g, cursorEnd, replies, 0, [], table.stored);
      windows, inserted, stop := [], 0, ReachedSince;
      var consecutiveEmpty, i := 0, 0;
      while cursorEnd > since
        invariant i <= |replies| && window == WindowAt(since, g, cursorEnd)
        invariant stop == ReachedSince && meta == old(meta)
        invariant inserted == |table.stored| - |old(table.stored)|
        invariant Walk(since, g, cursorEnd, replies[i..], consecutiveEmpty, windows, table.stored) == whole
        decreases |replies| - i
      {
        if i == |replies| {
          stop := Killed;
          return;
        }
        i := i + 1;
        if replies[i - 1] == Fails { continue; }
        var rows := replies[i - 1].rows;
        windows := windows + [window];
        if |rows| == 0 {
          consecutiveEmpty := consecutiveEmpty + 1;
          if consecutiveEmpty >= 3 {
            stop := ThreeEmpty;
            break;
          }
        } else {
          consecutiveEmpty := 0;
          var added := table.InsertBatch(rows);
          inserted := inserted + added;
        }
        cursorEnd := window.start - 1;
        window := WindowAt(since, g, cursorEnd);
      }
      meta := OldestRow(table.stored);
    }
  }
}
