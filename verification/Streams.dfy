/**
 An append-only stream read in pages and trimmed behind the reader. Entry ids are a timestamp and a
 sequence number, compared in that order.
 */
module Streams {
  import opened Wrappers

  datatype Id = Id(ts: nat, number: nat)

  datatype Entry = Entry(id: Id, fields: seq<string>)

  predicate Before(a: Id, b: Id) {
    a.ts < b.ts || (a.ts == b.ts && a.number < b.number)
  }

  predicate Ordered(entries: seq<Entry>) {
    forall i, j :: 0 <= i < j < |entries| ==> Before(entries[i].id, entries[j].id)
  }

  /** The entries after `last`, or all of them. */
  function After(entries: seq<Entry>, last: Option<Id>): seq<Entry> {
    if entries == [] || last.None? || Before(last.value, entries[0].id) then entries
    else After(entries[1..], last)
  }

  function Range(entries: seq<Entry>, last: Option<Id>, count: nat): seq<Entry> {
    var rest := After(entries, last);
    if |rest| <= count then rest else rest[..count]
  }

  /** XTRIM MINID: drop from the head while the id is lower. */
  function DropBelow(entries: seq<Entry>, min: Id): seq<Entry> {
    if entries == [] || !Before(entries[0].id, min) then entries else DropBelow(entries[1..], min)
  }

  function Trimmed(entries: seq<Entry>, minId: Id, inclusive: bool): seq<Entry> {
    DropBelow(entries, if inclusive then Id(minId.ts, minId.number + 1) else minId)
  }

  function Pages(maxEntries: nat, batchSize: nat): nat
    requires batchSize > 0
  {
    (maxEntries + batchSize - 1) / batchSize
  }

  datatype Collected = Collected(stream: seq<Entry>, entries: seq<Entry>, lastId: Option<Id>)

  /** The page loop; `arrivals` holds what other clients append before each page is read. */
  function Collect(stream: seq<Entry>, soFar: seq<Entry>, lastId: Option<Id>, batchSize: nat, maxEntries: nat,
                   arrivals: seq<seq<Entry>>): Collected
    decreases |arrivals|
  {
    if arrivals == [] then Collected(stream, soFar, lastId)
    else
      var grown := stream + arrivals[0];
      var batch := Range(grown, lastId, batchSize);
      if batch == [] then Collected(grown, soFar, lastId)
      else
        var all, last := soFar + batch, Some(batch[|batch| - 1].id);
        if |all| >= maxEntries || |batch| < batchSize then Collected(grown, all, last)
        else Collect(grown, all, last, batchSize, maxEntries, arrivals[1..])
  }

  class Stream {
    var entries: seq<Entry>

    constructor ()
      ensures entries == []
    {
      entries := [];
    }

    method StreamCollect(batchSize: nat, maxEntries: nat, arrivals: seq<seq<Entry>>)
      returns (allEntries: seq<Entry>, lastId: Option<Id>)
      requires batchSize > 0 && |arrivals| == Pages(maxEntries, batchSize)
      modifies this
      ensures Collected(entries, allEntries, lastId)
              == Collect(old(entries), [], None, batchSize, maxEntries, arrivals)
    {
      allEntries, lastId := [], None;
      for i := 0 to |arrivals|
        invariant Collect(entries, allEntries, lastId, batchSize, maxEntries, arrivals[i..])
                  == Collect(old(entries), [], None, batchSize, maxEntries, arrivals)
      {
        entries := entries + arrivals[i];
        var batch := Range(entries, lastId, batchSize);
        if batch == [] {
          break;
        }
        allEntries := allEntries + batch;
        lastId := Some(batch[|batch| - 1].id);
        if |allEntries| >= maxEntries || |batch| < batchSize {
          break;
        }
      }
    }

    method StreamTrim(minId: Id, inclusive: bool) returns (removed: nat)
      modifies this
      ensures entries == Trimmed(old(entries), minId, inclusive)
      ensures removed == |old(entries)| - |entries|
    {
      var id := if inclusive then Id(minId.ts, minId.number + 1) else minId;
      removed := 0;
      while removed < |entries| && Before(entries[removed].id, id)
        invariant removed <= |entries|
        invariant DropBelow(entries[removed..], id) == DropBelow(entries, id)
      {
        removed := removed + 1;
      }
      entries := entries[removed..];
    }
  }

  function Flatten(parts: seq<seq<Entry>>): seq<Entry> {
    if parts == [] then [] else parts[0] + Flatten(parts[1..])
  }

  lemma {:induction false} AfterSplits(entries: seq<Entry>, n: nat)
    requires Ordered(entries) && 0 < n <= |entries|
    ensures After(entries, Some(entries[n - 1].id)) == entries[n..]
  {
    if n > 1 {
      AfterSplits(entries[1..], n - 1);
    } else if |entries| > 1 {
      assert entries[1..][0] == entries[1];
    }
  }

  /** The inclusive trim removes exactly what is up to and including `minId`. */
  lemma {:induction false} InclusiveTrimSplits(entries: seq<Entry>, n: nat)
    requires Ordered(entries) && 0 < n <= |entries|
    ensures Trimmed(entries, entries[n - 1].id, true) == entries[n..]
  {
    var id := entries[n - 1].id;
    var min := Id(id.ts, id.number + 1);
    assert Before(entries[0].id, min);
    if n > 1 {
      InclusiveTrimSplits(entries[1..], n - 1);
      assert entries[1..][n - 2] == entries[n - 1] && entries[1..][n - 1..] == entries[n..];
    } else {
      NothingBelowNext(entries[1..], id);
    }
  }

  /** The exclusive trim keeps the entry it names and everything after it. */
  lemma {:induction false} ExclusiveTrimSplits(entries: seq<Entry>, n: nat)
    requires Ordered(entries) && n < |entries|
    ensures Trimmed(entries, entries[n].id, false) == entries[n..]
  {
    if n > 0 {
      ExclusiveTrimSplits(entries[1..], n - 1);
      assert entries[1..][n - 1] == entries[n] && entries[1..][n - 1..] == entries[n..];
    }
  }

  /** The entry goes, as it is below the bound, or it is the bound and the bound goes too. */
  predicate Goes(entry: Entry, minId: Id, inclusive: bool) {
    Before(entry.id, minId) || (inclusive && entry.id == minId)
  }

  /** For any bound, an id of the stream or not: the entries that go are a front of the stream, and no other goes. */
  lemma {:induction false} TrimSplits(entries: seq<Entry>, minId: Id, inclusive: bool) returns (n: nat)
    requires Ordered(entries)
    ensures n <= |entries| && Trimmed(entries, minId, inclusive) == entries[n..]
    ensures forall i :: 0 <= i < |entries| ==> (i < n <==> Goes(entries[i], minId, inclusive))
  {
    if entries == [] || !Goes(entries[0], minId, inclusive) {
      n := 0;
    } else {
      var m := TrimSplits(entries[1..], minId, inclusive);
      n := m + 1;
      assert forall i :: 0 < i < |entries| ==> entries[i] == entries[1..][i - 1];
    }
  }

  lemma NothingBelowNext(entries: seq<Entry>, id: Id)
    requires entries != [] ==> Before(id, entries[0].id)
    ensures DropBelow(entries, Id(id.ts, id.number + 1)) == entries
  {
  }

  /** The loop's bookkeeping: what was read is a prefix and `lastId` is its last id. */
  predicate ReadSoFar(stream: seq<Entry>, soFar: seq<Entry>, lastId: Option<Id>) {
    && soFar <= stream
    && lastId == if soFar == [] then None else Some(soFar[|soFar| - 1].id)
  }

  lemma RangeIsNextPage(stream: seq<Entry>, soFar: seq<Entry>, lastId: Option<Id>, batchSize: nat)
    requires Ordered(stream) && ReadSoFar(stream, soFar, lastId)
    ensures Range(stream, lastId, batchSize)
            == stream[|soFar|..if |soFar| + batchSize < |stream| then |soFar| + batchSize else |stream|]
  {
    if soFar != [] {
      AfterSplits(stream, |soFar|);
    }
  }

  /** A collect from `stream` on reads on to a prefix of a stream that has grown to at most `whole`. */
  predicate ReadsOn(stream: seq<Entry>, soFar: seq<Entry>, whole: seq<Entry>, c: Collected) {
    && stream <= c.stream <= whole
    && soFar <= c.entries
    && ReadSoFar(c.stream, c.entries, c.lastId)
  }

  lemma {:induction false} CollectReadsPrefix(stream: seq<Entry>, soFar: seq<Entry>, lastId: Option<Id>, batchSize: nat,
                                              maxEntries: nat, arrivals: seq<seq<Entry>>)
    requires Ordered(stream + Flatten(arrivals)) && ReadSoFar(stream, soFar, lastId)
    ensures var c := Collect(stream, soFar, lastId, batchSize, maxEntries, arrivals);
            ReadsOn(stream, soFar, stream + Flatten(arrivals), c)
    decreases |arrivals|
  {
    if arrivals != [] {
      var grown, whole := stream + arrivals[0], stream + Flatten(arrivals);
      Regroup(stream, arrivals[0], Flatten(arrivals[1..]));
      OrderedFront(grown, Flatten(arrivals[1..]));
      PageExtends(grown, soFar, lastId, batchSize);
      CollectFirst(stream, soFar, lastId, batchSize, maxEntries, arrivals);
      var batch := Range(grown, lastId, batchSize);
      if batch != [] {
        var last := Some(batch[|batch| - 1].id);
        CollectReadsPrefix(grown, soFar + batch, last, batchSize, maxEntries, arrivals[1..]);
        var c := Collect(stream, soFar, lastId, batchSize, maxEntries, arrivals);
        ReadsOnFrom(stream, arrivals[0], soFar, batch, whole, c);
      }
    }
  }

  /** One page of the loop. */
  lemma CollectFirst(stream: seq<Entry>, soFar: seq<Entry>, lastId: Option<Id>, batchSize: nat, maxEntries: nat,
                     arrivals: seq<seq<Entry>>)
    requires arrivals != []
    ensures var grown := stream + arrivals[0];
            var batch := Range(grown, lastId, batchSize);
            var c := Collect(stream, soFar, lastId, batchSize, maxEntries, arrivals);
            if batch == [] then c == Collected(grown, soFar, lastId)
            else
              var last := Some(batch[|batch| - 1].id);
              c == (if |soFar + batch| >= maxEntries || |batch| < batchSize then Collected(grown, soFar + batch, last)
                    else Collect(grown, soFar + batch, last, batchSize, maxEntries, arrivals[1..]))
  {
  }

  lemma ReadsOnFrom(stream: seq<Entry>, first: seq<Entry>, soFar: seq<Entry>, batch: seq<Entry>, whole: seq<Entry>,
                    c: Collected)
    requires ReadsOn(stream + first, soFar + batch, whole, c)
    ensures ReadsOn(stream, soFar, whole, c)
  {
    assert stream <= stream + first && soFar <= soFar + batch;
  }

  lemma Regroup(a: seq<Entry>, b: seq<Entry>, c: seq<Entry>)
    ensures a + (b + c) == (a + b) + c
  {
  }

  lemma OrderedFront(front: seq<Entry>, back: seq<Entry>)
    requires Ordered(front + back)
    ensures Ordered(front)
  {
    assert forall i :: 0 <= i < |front| ==> front[i] == (front + back)[i];
  }

  /** After a page the reader has read that much more. */
  lemma PageExtends(stream: seq<Entry>, soFar: seq<Entry>, lastId: Option<Id>, batchSize: nat)
    requires Ordered(stream) && ReadSoFar(stream, soFar, lastId)
    ensures var batch := Range(stream, lastId, batchSize);
            && batch == stream[|soFar|..if |soFar| + batchSize < |stream| then |soFar| + batchSize else |stream|]
            && (batch != [] ==> ReadSoFar(stream, soFar + batch, Some(batch[|batch| - 1].id)))
  {
    RangeIsNextPage(stream, soFar, lastId, batchSize);
  }

  lemma OnePageLess(pages: nat, batchSize: nat)
    requires pages > 0
    ensures pages * batchSize == batchSize + (pages - 1) * batchSize
    ensures pages > 1 ==> (pages - 1) * batchSize >= batchSize
  {
    if pages > 1 {
      assert (pages - 1) * batchSize == batchSize + (pages - 2) * batchSize;
    }
  }

  /** With nothing arriving, pages are read until `cap`, the page limit in entries, or the end. */
  lemma {:induction false} QuietCollectFrom(stream: seq<Entry>, soFar: seq<Entry>, lastId: Option<Id>, batchSize: nat,
                                            maxEntries: nat, arrivals: seq<seq<Entry>>, cap: nat)
    requires Ordered(stream) && ReadSoFar(stream, soFar, lastId) && batchSize > 0
    requires forall i :: 0 <= i < |arrivals| ==> arrivals[i] == []
    requires |soFar| + |arrivals| * batchSize == cap && cap - batchSize < maxEntries <= cap
    ensures var c := Collect(stream, soFar, lastId, batchSize, maxEntries, arrivals);
            c.stream == stream && c.entries == stream[..if cap < |stream| then cap else |stream|]
    decreases |arrivals|
  {
    if arrivals != [] {
      OnePageLess(|arrivals|, batchSize);
      assert arrivals[0] == [];
      assert stream + arrivals[0] == stream;
      PageExtends(stream, soFar, lastId, batchSize);
      var batch := Range(stream, lastId, batchSize);
      if batch != [] {
        if |soFar + batch| < maxEntries && |batch| == batchSize {
          var last := Some(batch[|batch| - 1].id);
          QuietCollectFrom(stream, soFar + batch, last, batchSize, maxEntries, arrivals[1..], cap);
        }
      }
    }
  }

  /** On a stream nobody appends to, one collect returns whole pages up to the maximum, or everything. */
  lemma QuietCollect(stream: seq<Entry>, batchSize: nat, maxEntries: nat)
    requires Ordered(stream) && batchSize > 0
    ensures var pages := Pages(maxEntries, batchSize);
            var c := Collect(stream, [], None, batchSize, maxEntries, seq(pages, _ => []));
            c.stream == stream
            && c.entries == stream[..if pages * batchSize < |stream| then pages * batchSize else |stream|]
  {
    var pages := Pages(maxEntries, batchSize);
    PagesCover(maxEntries, batchSize);
    QuietCollectFrom(stream, [], None, batchSize, maxEntries, seq(pages, _ => []), pages * batchSize);
  }

  lemma PagesCover(maxEntries: nat, batchSize: nat)
    requires batchSize > 0
    ensures var pages := Pages(maxEntries, batchSize); pages * batchSize - batchSize < maxEntries <= pages * batchSize
  {
    var n := maxEntries + batchSize - 1;
    assert n == n / batchSize * batchSize + n % batchSize;
  }

  // A single consumer draining the stream while others append.

  /** `history` is every entry ever appended, `delivered` every entry the consumer was given. */
  datatype State = State(stream: seq<Entry>, history: seq<Entry>, delivered: seq<Entry>)

  /** A drain: appends between its page reads, and appends between the collect and the trim. */
  datatype Step =
    | Append(entry: Entry)
    | Drain(batchSize: nat, maxEntries: nat, arrivals: seq<seq<Entry>>, late: seq<Entry>)

  function Next(s: State, step: Step): State {
    match step
    case Append(entry) => State(s.stream + [entry], s.history + [entry], s.delivered)
    case Drain(batchSize, maxEntries, arrivals, late) =>
      var c := Collect(s.stream, [], None, batchSize, maxEntries, arrivals);
      var appended := if |s.stream| <= |c.stream| then c.stream[|s.stream|..] else [];
      var full := c.stream + late;
      State(if c.lastId.None? then full else Trimmed(full, c.lastId.value, true),
            s.history + appended + late,
            s.delivered + c.entries)
  }

  /** Ids grow along the whole history, as the store makes sure. */
  predicate Enabled(s: State, step: Step) {
    match step
    case Append(entry) => Ordered(s.history + [entry])
    case Drain(_, _, arrivals, late) =>
      Ordered(s.history + Flatten(arrivals)) && Ordered(Next(s, step).history)
  }

  predicate EnabledRun(s: State, steps: seq<Step>)
    decreases |steps|
  {
    steps == [] || (Enabled(s, steps[0]) && EnabledRun(Next(s, steps[0]), steps[1..]))
  }

  function Run(s: State, steps: seq<Step>): State
    decreases |steps|
  {
    if steps == [] then s else Run(Next(s, steps[0]), steps[1..])
  }

  predicate Conserved(s: State) {
    s.delivered + s.stream == s.history && Ordered(s.history)
  }

  lemma OrderedTail(front: seq<Entry>, back: seq<Entry>)
    requires Ordered(front + back)
    ensures Ordered(back)
  {
    forall i, j | 0 <= i < j < |back| ensures Before(back[i].id, back[j].id) {
      assert back[i] == (front + back)[|front| + i] && back[j] == (front + back)[|front| + j];
    }
  }

  lemma StepConserves(s: State, step: Step)
    requires Conserved(s) && Enabled(s, step)
    ensures Conserved(Next(s, step))
  {
    match step
    case Append(entry) => assert s.delivered + (s.stream + [entry]) == s.history + [entry];
    case Drain(batchSize, maxEntries, arrivals, late) => DrainConserves(s, batchSize, maxEntries, arrivals, late);
  }

  lemma DrainConserves(s: State, batchSize: nat, maxEntries: nat, arrivals: seq<seq<Entry>>, late: seq<Entry>)
    requires Conserved(s) && Enabled(s, Drain(batchSize, maxEntries, arrivals, late))
    ensures Conserved(Next(s, Drain(batchSize, maxEntries, arrivals, late)))
  {
    DrainReadsPrefix(s, batchSize, maxEntries, arrivals);
    var c := Collect(s.stream, [], None, batchSize, maxEntries, arrivals);
    var history := Next(s, Drain(batchSize, maxEntries, arrivals, late)).history;
    assert history == s.delivered + (c.stream + late);
    TrimConserves(s.delivered, c.entries, c.lastId, c.stream + late, history);
  }

  lemma DrainReadsPrefix(s: State, batchSize: nat, maxEntries: nat, arrivals: seq<seq<Entry>>)
    requires Conserved(s) && Ordered(s.history + Flatten(arrivals))
    ensures var c := Collect(s.stream, [], None, batchSize, maxEntries, arrivals);
            s.stream <= c.stream && ReadSoFar(c.stream, c.entries, c.lastId)
  {
    assert Ordered(s.stream + Flatten(arrivals)) by {
      assert s.history + Flatten(arrivals) == s.delivered + (s.stream + Flatten(arrivals));
      OrderedTail(s.delivered, s.stream + Flatten(arrivals));
    }
    CollectReadsPrefix(s.stream, [], None, batchSize, maxEntries, arrivals);
  }

  /** Trimming what was just delivered keeps delivered and stream adding up to the history. */
  lemma TrimConserves(delivered: seq<Entry>, batch: seq<Entry>, lastId: Option<Id>, full: seq<Entry>,
                      history: seq<Entry>)
    requires Ordered(history) && history == delivered + full
    requires ReadSoFar(full, batch, lastId)
    ensures (delivered + batch) + (if lastId.None? then full else Trimmed(full, lastId.value, true)) == history
  {
    OrderedTail(delivered, full);
    if batch != [] {
      assert full[|batch| - 1] == batch[|batch| - 1];
      InclusiveTrimSplits(full, |batch|);
      assert delivered + full == (delivered + batch) + full[|batch|..];
    }
  }

  lemma {:induction false} RunConserves(s: State, steps: seq<Step>)
    requires Conserved(s) && EnabledRun(s, steps)
    ensures Conserved(Run(s, steps))
    decreases |steps|
  {
    if steps != [] {
      StepConserves(s, steps[0]);
      RunConserves(Next(s, steps[0]), steps[1..]);
    }
  }

  /**
   Whatever is appended and whenever, the batches a single consumer is given add up to a prefix of
   the append history, each entry once and in order, and the stream holds exactly the rest.
   */
  lemma NothingLostNothingTwice(steps: seq<Step>)
    requires EnabledRun(State([], [], []), steps)
    ensures var s := Run(State([], [], []), steps);
            s.delivered <= s.history && s.stream == s.history[|s.delivered|..]
  {
    RunConserves(State([], [], []), steps);
  }

  /** A page that is not full ends the collect: nothing that arrives later is read. */
  lemma ShortPageEnds(stream: seq<Entry>, soFar: seq<Entry>, lastId: Option<Id>, batchSize: nat, maxEntries: nat,
                      arrivals: seq<seq<Entry>>)
    requires arrivals != [] && |Range(stream + arrivals[0], lastId, batchSize)| < batchSize
    ensures var c := Collect(stream, soFar, lastId, batchSize, maxEntries, arrivals);
            && c.stream == stream + arrivals[0]
            && c.entries == soFar + Range(stream + arrivals[0], lastId, batchSize)
  {
    assert soFar + [] == soFar;
  }
}
