/**
 The note emitter: qualifying opportunity events become research notes, at most one per market
 and label. The keys of notes that exist already are rebuilt from their topics.
 */
module OpportunityNotes {

  datatype Kind = NearResolution | CrossTimeframe | OrderbookImbalance

  /** An event of the log; `value` is the number its threshold looks at. */
  datatype Event = Malformed | Event(kind: Kind, value: real, marketKey: string, title: string)

  datatype Note = Note(market: string, topic: string)

  datatype Thresholds = Thresholds(annualized: real, z: real, strength: real)

  function TypeLabelPrefix(kind: Kind): string {
    match kind
    case NearResolution => "NRS"
    case CrossTimeframe => "CTS"
    case OrderbookImbalance => "OBI"
  }

  predicate Qualifies(t: Thresholds, e: Event)
    requires e.Event?
  {
    match e.kind
    case NearResolution => e.value >= t.annualized
    case CrossTimeframe => (if e.value < 0.0 then -e.value else e.value) >= t.z
    case OrderbookImbalance => e.value >= t.strength
  }

  function DedupKey(market: string, kind: Kind): string {
    market + "|" + TypeLabelPrefix(kind)
  }

  /** topic.split(" ")[0] */
  function FirstWord(s: string): string {
    if s == "" || s[0] == ' ' then "" else [s[0]] + FirstWord(s[1..])
  }

  function Clip(title: string): string {
    if |title| <= 80 then title else title[..80]
  }

  function NoteFor(e: Event): Note
    requires e.Event?
  {
    Note(e.marketKey, TypeLabelPrefix(e.kind) + ": " + Clip(e.title))
  }

  function RebuiltKey(n: Note): string {
    n.market + "|" + FirstWord(n.topic)
  }

  /** The keys rebuilt from existing notes that name a market. */
  function RebuiltKeys(notes: seq<Note>): set<string> {
    set n | n in notes && n.market != "" :: RebuiltKey(n)
  }

  predicate Emits(t: Thresholds, e: Event, seen: set<string>) {
    e.Event? && Qualifies(t, e) && e.marketKey != "" && DedupKey(e.marketKey, e.kind) !in seen
  }

  /** The notes written for a list of events, given the keys seen so far. */
  function Notes(t: Thresholds, events: seq<Event>, seen: set<string>): seq<Note> {
    if events == [] then []
    else if Emits(t, events[0], seen) then
      [NoteFor(events[0])] + Notes(t, events[1..], seen + {DedupKey(events[0].marketKey, events[0].kind)})
    else Notes(t, events[1..], seen)
  }

  function Filtered(t: Thresholds, events: seq<Event>): nat {
    if events == [] then 0
    else Filtered(t, events[..|events| - 1])
         + if events[|events| - 1].Event? && !Qualifies(t, events[|events| - 1]) then 1 else 0
  }

  /** Existing notes, what was written so far and what is still to come make up the whole run. */
  ghost predicate OnTrack(t: Thresholds, whole: seq<Note>, notes: seq<Note>, events: seq<Event>, i: nat,
                          seen: set<string>)
    requires i <= |events|
  {
    notes + Notes(t, events[i..], seen) == whole
  }

  lemma TrackStep(t: Thresholds, whole: seq<Note>, notes: seq<Note>, events: seq<Event>, i: nat, seen: set<string>)
    requires i < |events| && OnTrack(t, whole, notes, events, i, seen)
    ensures if Emits(t, events[i], seen) then
              OnTrack(t, whole, notes + [NoteFor(events[i])], events, i + 1,
                      seen + {DedupKey(events[i].marketKey, events[i].kind)})
            else OnTrack(t, whole, notes, events, i + 1, seen)
  {
    var e := events[i];
    assert events[i..][0] == e && events[i..][1..] == events[i + 1..];
    if Emits(t, e, seen) {
      var later := Notes(t, events[i + 1..], seen + {DedupKey(e.marketKey, e.kind)});
      assert notes + ([NoteFor(e)] + later) == notes + [NoteFor(e)] + later;
    }
  }

  class NoteStore {
    var notes: seq<Note>

    /** The keys of the notes that exist. */
    method CollectKeys() returns (seenKeys: set<string>)
      ensures seenKeys == RebuiltKeys(notes)
    {
      seenKeys := {};
      for i := 0 to |notes|
        invariant seenKeys == RebuiltKeys(notes[..i])
      {
        assert notes[..i + 1] == notes[..i] + [notes[i]];
        if notes[i].market != "" { seenKeys := seenKeys + {RebuiltKey(notes[i])}; }
      }
      assert notes[..|notes|] == notes;
    }

    method Emit(t: Thresholds, events: seq<Event>) returns (emitted: nat, filtered: nat)
      modifies this
      ensures notes == old(notes) + Notes(t, events, RebuiltKeys(old(notes)))
      ensures emitted == |notes| - |old(notes)| && filtered == Filtered(t, events)
    {
      var seenKeys := CollectKeys();
      ghost var whole := notes + Notes(t, events, seenKeys);
      emitted, filtered := 0, 0;
      assert events[0..] == events;
      for i := 0 to |events|
        invariant OnTrack(t, whole, notes, events, i, seenKeys)
        invariant emitted == |notes| - |old(notes)| && filtered == Filtered(t, events[..i])
      {
        var e := events[i];
        assert events[..i + 1][..i] == events[..i];
        TrackStep(t, whole, notes, events, i, seenKeys);
        if e == Malformed { continue; }
        if !Qualifies(t, e) {
          filtered := filtered + 1;
          continue;
        }
        if e.marketKey == "" { continue; }
        var dedupKey := DedupKey(e.marketKey, e.kind);
        if dedupKey in seenKeys { continue; }
        seenKeys := seenKeys + {dedupKey};
        notes := notes + [NoteFor(e)];
        emitted := emitted + 1;
      }
      assert events[|events|..] == [] && events[..|events|] == events;
    }
  }

  // ---------------------------------------------------------------- within one run

  /** The note is for the given market and kind of opportunity. */
  predicate IsFor(n: Note, market: string, kind: Kind) {
    n.market == market && TypeLabelPrefix(kind) + ": " <= n.topic
  }

  /** An event at or above the threshold of its own kind; a spread may lie on either side. */
  ghost predicate Strong(t: Thresholds, e: Event) {
    && e.Event?
    && (e.kind == NearResolution ==> e.value >= t.annualized)
    && (e.kind == CrossTimeframe ==> e.value >= t.z || e.value <= -t.z)
    && (e.kind == OrderbookImbalance ==> e.value >= t.strength)
  }

  /** A strong event of a market and kind. */
  ghost predicate Wanted(t: Thresholds, events: seq<Event>, market: string, kind: Kind) {
    exists e :: e in events && Strong(t, e) && e.marketKey == market && e.kind == kind
  }

  function CountFor(notes: seq<Note>, market: string, kind: Kind): nat {
    if notes == [] then 0 else (if IsFor(notes[0], market, kind) then 1 else 0) + CountFor(notes[1..], market, kind)
  }

  lemma KeyInjective(m1: string, k1: Kind, m2: string, k2: Kind)
    requires DedupKey(m1, k1) == DedupKey(m2, k2)
    ensures m1 == m2 && k1 == k2
  {
    var a, b := DedupKey(m1, k1), DedupKey(m2, k2);
    assert |a| == |m1| + 4 && |b| == |m2| + 4;
    assert m1 == a[..|m1|] && m2 == b[..|m2|];
    assert a[|m1| + 1] == TypeLabelPrefix(k1)[0] && b[|m2| + 1] == TypeLabelPrefix(k2)[0];
  }

  lemma NoteIsFor(e: Event, market: string, kind: Kind)
    requires e.Event?
    ensures IsFor(NoteFor(e), market, kind) <==> e.marketKey == market && e.kind == kind
  {
    assert NoteFor(e).topic[0] == TypeLabelPrefix(e.kind)[0];
    if IsFor(NoteFor(e), market, kind) {
      assert (TypeLabelPrefix(kind) + ": ")[0] == TypeLabelPrefix(kind)[0];
    }
  }

  /**
   A run writes one note for every market and kind with a qualifying event it has no key for, and
   none for any other.
   */
  lemma {:induction false} OneNoteEach(t: Thresholds, events: seq<Event>, seen: set<string>, market: string, kind: Kind)
    requires market != ""
    ensures CountFor(Notes(t, events, seen), market, kind)
         == if Wanted(t, events, market, kind) && DedupKey(market, kind) !in seen then 1 else 0
  {
    if events != [] {
      var e, rest := events[0], events[1..];
      assert events == [e] + rest;
      if Emits(t, e, seen) {
        OneNoteEach(t, rest, seen + {DedupKey(e.marketKey, e.kind)}, market, kind);
        NoteIsFor(e, market, kind);
        if DedupKey(market, kind) == DedupKey(e.marketKey, e.kind) {
          KeyInjective(market, kind, e.marketKey, e.kind);
        }
      } else {
        OneNoteEach(t, rest, seen, market, kind);
      }
    }
  }

  /** The first eighty characters of a title, or all of it. */
  ghost predicate ClippedTo(short: string, title: string) {
    if |title| <= 80 then short == title else |short| == 80 && short <= title
  }

  /** The note of an event: its market, the label of its kind and the clipped title. */
  ghost predicate NoteOf(n: Note, e: Event) {
    && e.Event? && n.market == e.marketKey
    && exists short :: n.topic == Tag(e.kind) + short && ClippedTo(short, e.title)
  }

  function Tag(kind: Kind): string {
    if kind == NearResolution then "NRS: " else if kind == CrossTimeframe then "CTS: " else "OBI: "
  }

  lemma NoteForExactly(e: Event)
    requires e.Event?
    ensures NoteOf(NoteFor(e), e)
  {
    assert ClippedTo(Clip(e.title), e.title);
    assert TypeLabelPrefix(e.kind) + ": " == Tag(e.kind);
  }

  /** The keys that a list of events adds to those seen. */
  function KeysOf(t: Thresholds, events: seq<Event>): set<string> {
    set e | e in events && e.Event? && Qualifies(t, e) && e.marketKey != "" :: DedupKey(e.marketKey, e.kind)
  }

  /** One event gets a note exactly when it is strong, names a market and its key has not been seen. */
  lemma NotesOfOne(t: Thresholds, e: Event, seen: set<string>)
    ensures var notes := Notes(t, [e], seen);
            if Strong(t, e) && e.marketKey != "" && DedupKey(e.marketKey, e.kind) !in seen
            then |notes| == 1 && NoteOf(notes[0], e) else notes == []
    ensures forall key :: key in KeysOf(t, [e])
                     <==> Strong(t, e) && e.marketKey != "" && key == DedupKey(e.marketKey, e.kind)
  {
    assert [e][1..] == [];
    if e.Event? { NoteForExactly(e); }
  }

  lemma KeysMore(t: Thresholds, e: Event, rest: seq<Event>)
    ensures KeysOf(t, [e] + rest) == KeysOf(t, [e]) + KeysOf(t, rest)
  {
    forall x ensures x in [e] + rest <==> x == e || x in rest { }
  }

  /** The keys seen once an event has been looked at. */
  function Next(t: Thresholds, e: Event, seen: set<string>): set<string> {
    if Emits(t, e, seen) then seen + {DedupKey(e.marketKey, e.kind)} else seen
  }

  lemma NextKeys(t: Thresholds, e: Event, rest: seq<Event>, seen: set<string>)
    ensures Next(t, e, seen) + KeysOf(t, rest) == seen + KeysOf(t, [e] + rest)
  {
    KeysMore(t, e, rest);
    NotesOfOne(t, e, seen);
    assert Next(t, e, seen) == seen + KeysOf(t, [e]);
  }

  lemma NotesCons(t: Thresholds, e: Event, rest: seq<Event>, seen: set<string>)
    ensures Notes(t, [e] + rest, seen)
         == (if Emits(t, e, seen) then [NoteFor(e)] else []) + Notes(t, rest, Next(t, e, seen))
  {
    assert ([e] + rest)[1..] == rest;
  }

  lemma ThreeParts(x: seq<Note>, y: seq<Note>, z: seq<Note>)
    ensures x + (y + z) == x + y + z
  {
  }

  /** Later events are judged by the keys of earlier ones as well. */
  lemma {:induction false} NotesConcat(t: Thresholds, a: seq<Event>, b: seq<Event>, seen: set<string>)
    ensures Notes(t, a + b, seen) == Notes(t, a, seen) + Notes(t, b, seen + KeysOf(t, a))
    decreases |a|
  {
    if a == [] {
      assert a + b == b && KeysOf(t, a) == {} && seen + {} == seen;
    } else {
      var e, rest := a[0], a[1..];
      var next := Next(t, e, seen);
      assert a + b == [e] + (rest + b) && a == [e] + rest;
      NotesConcat(t, rest, b, next);
      NextKeys(t, e, rest, seen);
      NotesCons(t, e, rest + b, seen);
      NotesCons(t, e, rest, seen);
      var first := if Emits(t, e, seen) then [NoteFor(e)] else [];
      ThreeParts(first, Notes(t, rest, next), Notes(t, b, seen + KeysOf(t, a)));
    }
  }

  lemma FilteredOne(t: Thresholds, e: Event)
    ensures Filtered(t, [e]) == if e.Event? && !Strong(t, e) then 1 else 0
  {
    assert [e][..0] == [];
  }

  /** The filtered count goes up by one for each readable event that is not strong. */
  lemma {:induction false} FilteredConcat(t: Thresholds, a: seq<Event>, b: seq<Event>)
    ensures Filtered(t, a + b) == Filtered(t, a) + Filtered(t, b)
  {
    if b == [] {
      assert a + b == a;
    } else {
      assert (a + b)[..|a + b| - 1] == a + b[..|b| - 1];
      FilteredConcat(t, a, b[..|b| - 1]);
    }
  }

  // ---------------------------------------------------------------- across runs

  lemma LabelWord(word: string, rest: string)
    requires |word| == 3 && ' ' !in word
    ensures FirstWord(word + ": " + rest) == word + ":"
  {
    var s := word + ": " + rest;
    assert s[0] == word[0] && s[1] == word[1] && s[2] == word[2] && s[3] == ':' && s[4] == ' ';
    assert FirstWord(s[4..]) == "";
    assert s[3..][1..] == s[4..] && FirstWord(s[3..]) == [':'];
    assert s[2..][1..] == s[3..] && FirstWord(s[2..]) == [word[2], ':'];
    assert s[1..][1..] == s[2..] && FirstWord(s[1..]) == [word[1], word[2], ':'];
  }

  /** The key rebuilt from a written note ends in a colon, and no lookup key does. */
  lemma RebuiltNeverMatches(e: Event, market: string, kind: Kind)
    requires e.Event?
    ensures RebuiltKey(NoteFor(e)) != DedupKey(market, kind)
  {
    LabelWord(TypeLabelPrefix(e.kind), Clip(e.title));
    var a, b := RebuiltKey(NoteFor(e)), DedupKey(market, kind);
    assert a[|a| - 1] == ':' && b[|b| - 1] == TypeLabelPrefix(kind)[2];
  }

  /** The first word ends before the first blank. */
  lemma {:induction false} FirstWordExactly(word: string, rest: string)
    requires ' ' !in word && (rest == "" || rest[0] == ' ')
    ensures FirstWord(word + rest) == word
  {
    if word == "" {
      assert word + rest == rest;
    } else {
      assert (word + rest)[1..] == word[1..] + rest && word[0] in word;
      FirstWordExactly(word[1..], rest);
    }
  }

  /** A market and kind is taken for noted when a note that names a market has its market and first word for key. */
  lemma RebuiltExactly(notes: seq<Note>, market: string, kind: Kind)
    ensures DedupKey(market, kind) in RebuiltKeys(notes)
       <==> exists n :: n in notes && n.market != ""
                        && n.market + "|" + FirstWord(n.topic)
                           == market + "|" + (if kind == NearResolution then "NRS"
                                              else if kind == CrossTimeframe then "CTS" else "OBI")
  {
    assert forall n: Note :: RebuiltKey(n) == n.market + "|" + FirstWord(n.topic);
  }

  ghost predicate OwnNotes(notes: seq<Note>) {
    forall n :: n in notes ==> exists e: Event :: e.Event? && n == NoteFor(e)
  }

  lemma {:induction false} KeysDoNotMatter(t: Thresholds, events: seq<Event>, seen: set<string>, extra: set<string>)
    requires forall market, kind :: DedupKey(market, kind) !in extra
    ensures Notes(t, events, seen + extra) == Notes(t, events, seen)
  {
    if events != [] {
      if Emits(t, events[0], seen) {
        var key := DedupKey(events[0].marketKey, events[0].kind);
        assert seen + extra + {key} == seen + {key} + extra;
        KeysDoNotMatter(t, events[1..], seen + {key}, extra);
      } else {
        KeysDoNotMatter(t, events[1..], seen, extra);
      }
    }
  }

  /** A second run on the same events writes every note again: the notes of earlier runs are never recognised. */
  lemma RerunRepeats(t: Thresholds, events: seq<Event>, notes: seq<Note>)
    requires OwnNotes(notes)
    ensures Notes(t, events, RebuiltKeys(notes)) == Notes(t, events, {})
  {
    forall market, kind ensures DedupKey(market, kind) !in RebuiltKeys(notes) {
      forall n | n in notes ensures RebuiltKey(n) != DedupKey(market, kind) {
        var e: Event :| e.Event? && n == NoteFor(e);
        RebuiltNeverMatches(e, market, kind);
      }
    }
    assert {} + RebuiltKeys(notes) == RebuiltKeys(notes);
    KeysDoNotMatter(t, events, {}, RebuiltKeys(notes));
  }
}
