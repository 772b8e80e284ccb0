/**
 The mirror over whole runs: rows are appended to the source with ever larger ids, a pass reads
 them batch by batch and may crash between batches, and old source rows are pruned.
 */
module MirrorRuns {

  import opened Mirror
  import opened Wrappers

  /** `ever` holds every row ever appended, `live` the ids still in the source, `cursor` the last id of the pass. */
  datatype World = World(ever: seq<Row>, live: set<int>, dst: map<int, string>, cursor: Option<int>, lost: set<int>)

  const INIT := World([], {}, map[], None, {})

  datatype Step = Append(id: int, body: string) | Begin | Batch(n: nat) | Crash | Prune(ids: set<int>)

  /** The source table. */
  function Source(ever: seq<Row>, live: set<int>): seq<Row> {
    if ever == [] then []
    else
      var last := ever[|ever| - 1];
      Source(ever[..|ever| - 1], live) + if last.id in live then [last] else []
  }

  predicate Enabled(w: World, step: Step) {
    match step
    case Append(id, _) => id > if w.ever == [] then 0 else w.ever[|w.ever| - 1].id
    case Batch(n) => n > 0 && w.cursor.Some?
    case _ => true
  }

  function Fetch(w: World, n: nat): World
    requires w.cursor.Some?
  {
    var src := Source(w.ever, w.live);
    var i := From(src, w.cursor.value);
    var j := PageEnd(src, i, n);
    w.(dst := InsertRange(w.dst, src, i, j),
       cursor := if j - i < n then None else if j == 0 then w.cursor else Some(src[j - 1].id))
  }

  function Apply(w: World, step: Step): World {
    if !Enabled(w, step) then w
    else
      match step
      case Append(id, body) => w.(ever := w.ever + [Row(id, body)], live := w.live + {id})
      case Begin => w.(cursor := Some(MaxId(w.dst)))
      case Batch(n) => Fetch(w, n)
      case Crash => w.(cursor := None)
      case Prune(ids) =>
        var m := MaxId(w.dst);
        w.(live := w.live - ids, lost := w.lost + set id | id in w.live && id in ids && id > m)
  }

  function Run(w: World, steps: seq<Step>): World
    decreases |steps|
  {
    if steps == [] then w else Run(Apply(w, steps[0]), steps[1..])
  }

  // ---------------------------------------------------------------- the source table

  lemma {:induction false} InSource(ever: seq<Row>, live: set<int>, r: Row)
    ensures r in Source(ever, live) <==> r in ever && r.id in live
  {
    if ever != [] {
      var init, last := ever[..|ever| - 1], ever[|ever| - 1];
      assert ever == init + [last];
      InSource(init, live, r);
    }
  }

  lemma TableAppend(rows: seq<Row>, r: Row)
    requires Table(rows) && r.id > 0 && forall x :: x in rows ==> x.id < r.id
    ensures Table(rows + [r])
  {
  }

  lemma {:induction false} SourceTable(ever: seq<Row>, live: set<int>)
    requires Table(ever)
    ensures Table(Source(ever, live))
  {
    if ever != [] {
      var init, last := ever[..|ever| - 1], ever[|ever| - 1];
      SourceTable(init, live);
      forall x | x in Source(init, live) ensures x.id < last.id { InSource(init, live, x); }
      TableAppend(Source(init, live), last);
    }
  }

  lemma {:induction false} InRange(dst: map<int, string>, rows: seq<Row>, i: nat, j: nat, id: int)
    requires i <= j <= |rows|
    ensures id in InsertRange(dst, rows, i, j) <==> id in dst || exists k :: i <= k < j && rows[k].id == id
    ensures id in dst ==> InsertRange(dst, rows, i, j)[id] == dst[id]
    ensures id !in dst && id in InsertRange(dst, rows, i, j) ==>
              Row(id, InsertRange(dst, rows, i, j)[id]) in rows
    decreases j
  {
    if i < j { InRange(dst, rows, i, j - 1, id); }
  }

  // ---------------------------------------------------------------- the invariant

  /** What is archived was appended with just this body. */
  ghost predicate Genuine(dst: map<int, string>, ever: seq<Row>) {
    forall id :: id in dst ==> Row(id, dst[id]) in ever
  }

  /** Up to id m exactly the rows that were not lost are archived, and above it exactly those are live. */
  ghost predicate Sorted(ever: seq<Row>, dst: map<int, string>, live: set<int>, lost: set<int>, m: int) {
    && (forall r :: r in ever && r.id <= m ==> (r.id in dst <==> r.id !in lost))
    && (forall r :: r in ever && r.id > m ==> (r.id in live <==> r.id !in lost))
  }

  ghost predicate Inv(w: World) {
    && Table(w.ever) && Genuine(w.dst, w.ever)
    && Sorted(w.ever, w.dst, w.live, w.lost, MaxId(w.dst))
    && (w.cursor.Some? ==> w.cursor.value == MaxId(w.dst))
  }

  lemma SameRow(rows: seq<Row>, a: Row, b: Row)
    requires Table(rows) && a in rows && b in rows && a.id == b.id
    ensures a == b
  {
  }

  /** A batch moves the largest mirrored id to the last row it inserts. */
  lemma RangeMax(dst: map<int, string>, src: seq<Row>, i: nat, j: nat)
    requires Table(src) && i < j <= |src| && i == From(src, MaxId(dst))
    ensures MaxId(InsertRange(dst, src, i, j)) == src[j - 1].id > MaxId(dst)
  {
    var after, top := InsertRange(dst, src, i, j), src[j - 1].id;
    FromSound(src, MaxId(dst), j - 1);
    InRange(dst, src, i, j, top);
    forall x | x in after ensures x <= top {
      InRange(dst, src, i, j, x);
    }
    assert IsMax(after, top);
    assert IsMax(after, MaxId(after));
  }

  /** A batch inserts the source rows between the old and the new largest mirrored id. */
  lemma RangeInserts(dst: map<int, string>, src: seq<Row>, i: nat, j: nat, id: int)
    requires Table(src) && i <= j <= |src| && i == From(src, MaxId(dst))
    ensures var after := InsertRange(dst, src, i, j);
            && MaxId(after) >= MaxId(dst)
            && (id in after <==> id in dst || (MaxId(dst) < id <= MaxId(after) && exists r :: r in src && r.id == id))
            && (id in dst ==> after[id] == dst[id])
            && (id !in dst && id in after ==> Row(id, after[id]) in src)
  {
    var after := InsertRange(dst, src, i, j);
    InRange(dst, src, i, j, id);
    if i < j {
      RangeMax(dst, src, i, j);
      forall k | 0 <= k < |src| ensures i <= k < j <==> MaxId(dst) < src[k].id <= MaxId(after) {
        FromSound(src, MaxId(dst), k);
      }
    }
  }

  lemma BatchKeeps(w: World, n: nat)
    requires Inv(w) && w.cursor.Some? && n > 0
    ensures Inv(Fetch(w, n)) && MaxId(Fetch(w, n).dst) >= MaxId(w.dst)
  {
    var src, m := Source(w.ever, w.live), MaxId(w.dst);
    var i := From(src, m);
    var j := PageEnd(src, i, n);
    var after := Fetch(w, n);
    SourceTable(w.ever, w.live);
    RangeInserts(w.dst, src, i, j, 0);
    if i < j { RangeMax(w.dst, src, i, j); }
    forall id | id in after.dst ensures Row(id, after.dst[id]) in w.ever {
      RangeInserts(w.dst, src, i, j, id);
      if id !in w.dst { InSource(w.ever, w.live, Row(id, after.dst[id])); }
    }
    forall r | r in w.ever && r.id <= MaxId(after.dst) ensures r.id in after.dst <==> r.id !in w.lost {
      RangeInserts(w.dst, src, i, j, r.id);
      InSource(w.ever, w.live, r);
      forall x | x in src && x.id == r.id ensures x == r {
        InSource(w.ever, w.live, x);
        SameRow(w.ever, x, r);
      }
    }
  }

  /** Lost and live ids belong to rows that were appended, and no id is both. */
  ghost predicate Known(w: World) {
    && (forall x :: x in w.lost || x in w.live ==> exists r :: r in w.ever && r.id == x)
    && w.lost !! w.live
  }

  lemma AppendKeeps(w: World, id: int, body: string)
    requires Inv(w) && Known(w) && Enabled(w, Append(id, body))
    ensures Inv(Apply(w, Append(id, body)))
  {
    var r := Row(id, body);
    forall x | x in w.ever ensures x.id < id { }
    TableAppend(w.ever, r);
    AppendAbove(w, r);
    StillGenuine(w.dst, w.ever, r);
  }

  lemma StillGenuine(dst: map<int, string>, ever: seq<Row>, r: Row)
    requires Genuine(dst, ever)
    ensures Genuine(dst, ever + [r])
  {
    forall x | x in dst ensures Row(x, dst[x]) in ever + [r] {
      assert Row(x, dst[x]) in ever;
    }
  }

  /** The new row is above everything archived, and live. */
  lemma AppendAbove(w: World, r: Row)
    requires Inv(w) && Known(w) && Enabled(w, Append(r.id, r.body))
    requires forall x :: x in w.ever ==> x.id < r.id
    ensures Sorted(w.ever + [r], w.dst, w.live + {r.id}, w.lost, MaxId(w.dst))
  {
    var m := MaxId(w.dst);
    if w.dst != map[] {
      assert Row(m, w.dst[m]) in w.ever;
    }
    forall x | x in w.ever + [r] ensures x == r || x in w.ever { }
  }

  lemma AppendKnown(w: World, r: Row)
    requires Table(w.ever) && Known(w) && Enabled(w, Append(r.id, r.body))
    ensures Known(Apply(w, Append(r.id, r.body)))
  {
    var ever := w.ever + [r];
    assert r in ever;
    forall x | x in w.lost || x in w.live ensures x != r.id && exists y :: y in ever && y.id == x {
      var y :| y in w.ever && y.id == x;
      assert y in ever;
    }
  }

  lemma ApplyKeeps(w: World, step: Step)
    requires Inv(w) && Known(w)
    ensures Inv(Apply(w, step)) && Known(Apply(w, step))
  {
    if Enabled(w, step) {
      match step {
        case Append(id, body) =>
          AppendKeeps(w, id, body);
          AppendKnown(w, Row(id, body));
        case Begin =>
        case Batch(n) => BatchKeeps(w, n);
        case Crash =>
        case Prune(ids) =>
      }
    }
  }

  lemma {:induction false} RunKeeps(w: World, steps: seq<Step>)
    requires Inv(w) && Known(w)
    ensures Inv(Run(w, steps)) && Known(Run(w, steps))
    decreases |steps|
  {
    if steps != [] {
      ApplyKeeps(w, steps[0]);
      RunKeeps(Apply(w, steps[0]), steps[1..]);
    }
  }

  // ---------------------------------------------------------------- what the archive holds

  /** The archive is exactly the rows ever appended with an id up to m. */
  ghost predicate IsPrefix(dst: map<int, string>, ever: seq<Row>, m: int) {
    && (forall id :: id in dst ==> Row(id, dst[id]) in ever && id <= m)
    && (forall r :: r in ever && r.id <= m ==> r.id in dst)
  }

  /** After any run the archive is such a prefix, except for rows pruned before they were mirrored. */
  lemma ArchiveExactly(steps: seq<Step>)
    ensures var w := Run(INIT, steps);
            IsPrefix(w.dst, w.ever, MaxId(w.dst)) <==> forall r :: r in w.ever && r.id in w.lost ==> r.id > MaxId(w.dst)
  {
    RunKeeps(INIT, steps);
  }

  /** A prune that only removes mirrored rows. */
  predicate Safe(w: World, step: Step) {
    step.Prune? ==> forall id :: id in step.ids ==> id <= MaxId(w.dst)
  }

  ghost predicate SafeRun(w: World, steps: seq<Step>)
    decreases |steps|
  {
    steps == [] || (Safe(w, steps[0]) && SafeRun(Apply(w, steps[0]), steps[1..]))
  }

  lemma {:induction false} SafeLosesNothing(w: World, steps: seq<Step>)
    requires SafeRun(w, steps)
    ensures Run(w, steps).lost == w.lost
    decreases |steps|
  {
    if steps != [] {
      assert Apply(w, steps[0]).lost == w.lost;
      SafeLosesNothing(Apply(w, steps[0]), steps[1..]);
    }
  }

  /** With safe prunes: appends, batches, crashes and passes in any order leave a prefix of everything ever appended. */
  lemma ArchiveIsPrefix(steps: seq<Step>)
    requires SafeRun(INIT, steps)
    ensures var w := Run(INIT, steps); IsPrefix(w.dst, w.ever, MaxId(w.dst))
  {
    SafeLosesNothing(INIT, steps);
    ArchiveExactly(steps);
  }

  /** A batch that ends its pass leaves nothing in the source that is not archived. */
  lemma PassCatchesUp(w: World, n: nat, r: Row)
    requires Inv(w) && Known(w) && w.cursor.Some? && n > 0 && Fetch(w, n).cursor == None
    requires r in Source(w.ever, w.live)
    ensures r.id in Fetch(w, n).dst && r.id <= MaxId(Fetch(w, n).dst)
  {
    var src := Source(w.ever, w.live);
    var i := From(src, MaxId(w.dst));
    SourceTable(w.ever, w.live);
    InSource(w.ever, w.live, r);
    assert r.id !in w.lost;
    RangeInserts(w.dst, src, i, |src|, r.id);
    var k :| 0 <= k < |src| && src[k] == r;
    FromSound(src, MaxId(w.dst), k);
    if i < |src| { RangeMax(w.dst, src, i, |src|); }
  }

  // ---------------------------------------------------------------- a row pruned too early

  lemma {:induction false} LostStays(w: World, steps: seq<Step>, r: Row)
    requires r in w.ever && r.id in w.lost
    ensures r in Run(w, steps).ever && r.id in Run(w, steps).lost
    decreases |steps|
  {
    if steps != [] {
      assert r in Apply(w, steps[0]).ever;
      LostStays(Apply(w, steps[0]), steps[1..], r);
    }
  }

  lemma NeverArchived(w: World, steps: seq<Step>, r: Row)
    requires Inv(w) && Known(w) && r in w.ever && r.id in w.lost
    ensures r.id !in Run(w, steps).dst
  {
    LostStays(w, steps, r);
    RunKeeps(w, steps);
    assert r.id in Run(w, steps).dst ==> r.id <= MaxId(Run(w, steps).dst);
  }

  lemma TwoSteps(w: World, a: Step, b: Step)
    ensures Run(w, [a, b]) == Apply(Apply(w, a), b)
  {
    assert [a, b][1..] == [b] && [b][1..] == [];
    assert Run(Apply(w, a), [b]) == Run(Apply(Apply(w, a), b), []);
  }

  /** A pass in one batch that is larger than the source archives every live row. */
  lemma OnePassArchives(w: World, r: Row) returns (steps: seq<Step>)
    requires Inv(w) && Known(w) && r in w.ever && r.id in w.live
    ensures r.id in Run(w, steps).dst
  {
    var n := |Source(w.ever, w.live)| + 1;
    steps := [Begin, Batch(n)];
    var started := Apply(w, Begin);
    ApplyKeeps(w, Begin);
    InSource(w.ever, w.live, r);
    PassCatchesUp(started, n, r);
    TwoSteps(w, Begin, Batch(n));
  }

  /**
   A prune decides about a row the mirror has not reached: it can still be archived afterwards,
   by some continuation, exactly when the prune leaves it in the source.
   */
  lemma PruneDecides(steps: seq<Step>, ids: set<int>, r: Row)
    requires var w := Run(INIT, steps); r in w.ever && r.id in w.live && r.id > MaxId(w.dst)
    ensures var pruned := Apply(Run(INIT, steps), Prune(ids));
            (exists more :: r.id in Run(pruned, more).dst) <==> r.id !in ids
  {
    var w := Run(INIT, steps);
    RunKeeps(INIT, steps);
    ApplyKeeps(w, Prune(ids));
    var pruned := Apply(w, Prune(ids));
    if r.id in ids {
      forall more
        ensures r.id !in Run(pruned, more).dst
      {
        NeverArchived(pruned, more, r);
      }
    } else {
      var more := OnePassArchives(pruned, r);
      assert r.id in Run(pruned, more).dst;
    }
  }
}
