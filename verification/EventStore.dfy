/** The append-only event store: a log, two posting-list indexes over it, and recovery from the
    records on disk. */
module EventStores {
  import opened Options
  import opened EventLogs

  /** Gives an event a new number, which is above the slots of the log. */
  method Renumber(event: Event, n: nat, ghost events: seq<Event>)
    requires n == |events| + 1
    modifies event`sequence, event`version
    ensures event.sequence == n && event.version == 1
    ensures old(Raised(events)) ==>
      Raised(events) && (Numbered(events) <==> old(Numbered(events)) && event !in events)
  {
    event.sequence := n;
    event.version := 1;
    if event in events {
      var i :| 0 <= i < |events| && events[i] == event;
      assert events[i].sequence != i + 1;
    }
    if old(Raised(events)) && !old(Numbered(events)) {
      var i :| 0 <= i < |events| && old(events[i].sequence) != i + 1;
      assert events[i].sequence > i + 1;
    }
  }

  method RenumberTraced(event: Event, n: nat, ghost events: seq<Event>, ghost stampings: seq<Stamping>,
                        ghost stored: bool)
    requires n == |events| + 1
    modifies event`sequence, event`version
    ensures event.sequence == n && event.version == 1
    ensures old(Raised(events)) ==>
      Raised(events) && (Numbered(events) <==> old(Numbered(events)) && event !in events)
    ensures old(IsTrace(events, stampings)) ==>
      IsTrace(if stored then events + [event] else events, stampings + [Stamping(event, stored)])
  {
    ghost var traced := IsTrace(events, stampings);
    Renumber(event, n, events);
    if traced {
      TraceOneMore(events, stampings, Stamping(event, stored));
    }
  }

  class EventStore {
    var events: seq<Event>
    var sequence: nat
    var index: Index
    var aggregates: Index
    var file: seq<Record>
    ghost var posted: seq<bool>
    /** Every stamping since the store was made or opened; reading a record back counts as one. */
    ghost var stampings: seq<Stamping>

    ghost predicate Valid()
      reads this
    {
      IsStore(file, events, sequence, index, aggregates, posted)
    }

    /** In every run: the objects in memory are numbered if and only if no stamping hit the log. */
    ghost predicate Traced()
      reads this, events
    {
      IsTrace(events, stampings)
    }

    constructor ()
      ensures Valid() && Traced() && events == [] && file == [] && stampings == []
    {
      events, sequence, index, aggregates, file, posted, stampings := [], 0, map[], map[], [], [], [];
    }

    ghost predicate Loaded(log: seq<Record>)
      reads this, events
    {
      IsLoaded(log, events, sequence, index, aggregates, posted)
    }

    /** Takes over an event under the number it carries. */
    method Take(event: Event)
      modifies this`events, this`sequence, this`index, this`aggregates, this`posted
      ensures events == old(events) + [event] && sequence == event.sequence && posted == old(posted) + [true]
      ensures index == Post(old(index), event.id, event.sequence)
      ensures aggregates == Post(old(aggregates), event.aggregate, event.sequence)
    {
      events := events + [event];
      sequence := event.sequence;
      index := Post(index, event.id, event.sequence);
      aggregates := Post(aggregates, event.aggregate, event.sequence);
      posted := posted + [true];
    }

    method TakeRecord(event: Event, r: Record, ghost log: seq<Record>)
      requires Loaded(log) && event !in events
      requires r == Record(event.id, event.aggregate, event.data, event.sequence, event.version)
      modifies this`events, this`sequence, this`index, this`aggregates, this`posted
      ensures Loaded(log + [r]) && events == old(events) + [event]
    {
      LoadedOneMore(log, events, sequence, index, aggregates, posted, event, r);
      Take(event);
    }

    /** One round of the load loop. */
    method ReadBack(r: Record, ghost log: seq<Record>) returns (event: Event)
      requires Loaded(log)
      modifies this`events, this`sequence, this`index, this`aggregates, this`posted
      ensures Loaded(log + [r]) && fresh(event) && events == old(events) + [event]
    {
      event := new Event(r.id, r.aggregate, r.data, r.sequence, r.version);
      TakeRecord(event, r, log);
    }

    /** Takes whatever sequence numbers the records carry. */
    method Load()
      requires events == [] && sequence == 0 && index == aggregates == map[] && posted == []
      modifies this
      ensures file == old(file) && Loaded(file) && fresh(events)
      ensures |posted| == |events|
      ensures FindsSlots(index, Ids(events), posted) <==> IsLog(file)
      ensures FindsSlots(aggregates, AggregateIds(events), posted) <==> IsLog(file)
      ensures IsLog(file) ==> Valid() && Numbered(events) && Traced()
    {
      var lastSeq := 0;
      for i := 0 to |file|
        invariant file == old(file) && fresh(events) && Loaded(file[..i]) && sequence == lastSeq
      {
        assert file[..i + 1] == file[..i] + [file[i]];
        var _ := ReadBack(file[i], file[..i]);
        lastSeq := sequence;
      }
      assert file[..|file|] == file;
      sequence := lastSeq;
      stampings := AllStored(events);
      LoadedIff(file, events, sequence, index, aggregates, posted);
      if IsLog(file) {
        ReadBackIsTrace(events);
      }
    }

    /** `NewEventStore` on an existing file: reads back every record. The indexes find the slots of the
        events exactly when the file is numbered from 1 without a gap. */
    constructor Open(log: seq<Record>)
      ensures file == log && Loaded(log) && fresh(events)
      ensures |posted| == |events|
      ensures FindsSlots(index, Ids(events), posted) <==> IsLog(log)
      ensures FindsSlots(aggregates, AggregateIds(events), posted) <==> IsLog(log)
      ensures IsLog(log) ==> Valid() && Numbered(events) && Traced()
    {
      events, sequence, index, aggregates, posted := [], 0, map[], map[], [];
      file := log;
      new;
      Load();
    }

    /** Appends to the log in memory and to both posting lists. */
    method Remember(event: Event)
      requires |posted| == |events| && event.sequence == |events| + 1
      requires Indexes(index, Ids(events), posted) && Indexes(aggregates, AggregateIds(events), posted)
      modifies this`events, this`index, this`aggregates, this`posted
      ensures events == old(events) + [event] && posted == old(posted) + [true]
      ensures Indexes(index, Ids(events), posted) && Indexes(aggregates, AggregateIds(events), posted)
    {
      PostOneMore(index, aggregates, events, posted, event);
      index := Post(index, event.id, event.sequence);
      aggregates := Post(aggregates, event.aggregate, event.sequence);
      events := events + [event];
      posted := posted + [true];
    }

    /** Stamps an event with the next number. That keeps the numbering of the log exactly when the
        event is not in it. */
    method Stamp(event: Event, ghost stored: bool)
      requires sequence == |events|
      modifies event`sequence, event`version, this`stampings
      ensures event.sequence == sequence + 1 && event.version == 1
      ensures old(Raised(events)) ==>
        Raised(events) && (Numbered(events) <==> old(Numbered(events)) && event !in events)
      ensures stampings == old(stampings) + [Stamping(event, stored)]
      ensures old(Traced()) ==> IsTrace(if stored then events + [event] else events, stampings)
    {
      RenumberTraced(event, sequence + 1, events, stampings, stored);
      stampings := stampings + [Stamping(event, stored)];
    }

    method StorePosted(event: Event)
      requires Valid() && event.sequence == sequence + 1
      modifies this`events, this`posted, this`file, this`sequence, this`index, this`aggregates
      ensures Valid() && events == old(events) + [event] && posted == old(posted) + [true]
      ensures file == old(file) + [RecordOf(event, old(sequence) + 1)]
    {
      file := file + [RecordOf(event, event.sequence)];
      Remember(event);
      sequence := event.sequence;
    }

    /** Stamps the caller's event and, if it can be written, stores it. The objects in memory stay
        numbered exactly when this one was not in the log already: an object that is appended
        again takes a new number in its old slot too. */
    method Append(event: Event, encodes: bool) returns (ok: bool)
      requires Valid()
      modifies this, event`sequence, event`version
      ensures Valid() && ok == encodes
      ensures event.sequence == old(sequence) + 1 && event.version == 1
      ensures ok ==> events == old(events) + [event] && posted == old(posted) + [true]
      ensures ok ==> file == old(file) + [RecordOf(event, old(sequence) + 1)]
      ensures !ok ==> events == old(events) && posted == old(posted) && file == old(file)
      ensures old(Numbered(events)) ==> (Numbered(events) <==> event !in old(events))
      ensures stampings == old(stampings) + [Stamping(event, ok)] && (old(Traced()) ==> Traced())
    {
      Stamp(event, encodes);
      if !encodes {
        return false;
      }
      if old(Numbered(events)) {
        NumberedOneMore(events, event);
      }
      StorePosted(event);
      return true;
    }

    method RememberUnposted(event: Event)
      requires |posted| == |events|
      requires Indexes(index, Ids(events), posted) && Indexes(aggregates, AggregateIds(events), posted)
      modifies this`events, this`posted
      ensures events == old(events) + [event] && posted == old(posted) + [false]
      ensures Indexes(index, Ids(events), posted) && Indexes(aggregates, AggregateIds(events), posted)
    {
      assert Ids(events + [event]) == Ids(events) + [event.id];
      assert AggregateIds(events + [event]) == AggregateIds(events) + [event.aggregate];
      SkipKeepsIndex(index, Ids(events), posted, event.id);
      SkipKeepsIndex(aggregates, AggregateIds(events), posted, event.aggregate);
      events := events + [event];
      posted := posted + [false];
    }

    method KeepUnposted(event: Event)
      requires Valid() && event.sequence == sequence + 1
      modifies this`events, this`posted, this`file, this`sequence
      ensures Valid() && events == old(events) + [event] && posted == old(posted) + [false]
    {
      file := file + [RecordOf(event, event.sequence)];
      RememberUnposted(event);
      sequence := event.sequence;
    }

    /** One round of the batch loop. */
    method StoreUnposted(event: Event)
      requires Valid()
      modifies this`events, this`posted, this`file, this`sequence, this`stampings, event`sequence, event`version
      ensures Valid() && events == old(events) + [event] && posted == old(posted) + [false]
      ensures stampings == old(stampings) + [Stamping(event, true)] && (old(Traced()) ==> Traced())
    {
      Stamp(event, true);
      KeepUnposted(event);
    }

    /** Stores events without posting them, up to the first one that cannot be written, which is
        stamped all the same. */
    method AppendBatch(batch: seq<Event>, writable: nat) returns (ok: bool)
      requires Valid()
      modifies this, batch
      ensures Valid() && (ok <==> |batch| <= writable)
      ensures var stored := if ok then batch else batch[..writable];
              && events == old(events) + stored
              && posted[..|old(posted)|] == old(posted) && (forall i :: |old(posted)| <= i < |posted| ==> !posted[i])
              && index == old(index) && aggregates == old(aggregates)
      ensures stampings == old(stampings) + BatchStampings(batch, writable) && (old(Traced()) ==> Traced())
    {
      ghost var base := |events|;
      for i := 0 to |batch|
        invariant Valid() && i <= writable
        invariant events == old(events) + batch[..i]
        invariant posted[..base] == old(posted) && forall k :: base <= k < |posted| ==> !posted[k]
        invariant index == old(index) && aggregates == old(aggregates)
        invariant stampings == old(stampings) + BatchStampings(batch[..i], i) && (old(Traced()) ==> Traced())
      {
        BatchStampingsStep(batch, i);
        assert old(events) + batch[..i + 1] == events + [batch[i]];
        if i == writable {
          Stamp(batch[i], false);
          return false;
        }
        StoreUnposted(batch[i]);
      }
      assert batch[..|batch|] == batch;
      BatchStampingsEnd(batch, writable);
      return true;
    }

    /** The first posted event with this id. */
    method Get(id: Id) returns (r: Option<Event>)
      requires Valid()
      ensures r.None? <==> forall i :: 0 <= i < |events| && posted[i] ==> events[i].id != id
      ensures r.Some? ==> exists i :: 0 <= i < |events| && posted[i] && events[i] == r.value && r.value.id == id &&
                                      forall k :: 0 <= k < i && posted[k] ==> events[k].id != id
    {
      var sequences := Lookup(index, id);
      PostingsAreSound(Ids(events), posted, id);
      forall i | 0 <= i < |events| && posted[i] && events[i].id == id
        ensures i + 1 in sequences
      {
        PostingsAreComplete(Ids(events), posted, id, i + 1);
      }
      if id !in index || |sequences| == 0 {
        return None;
      }
      ghost var first := sequences[0] - 1;
      assert posted[first] && events[first].id == id;
      return Some(events[sequences[0] - 1]);
    }

    /** What the index lists under the aggregate, with no event where a number is not in the log. In a
        store that a run can leave: all posted events of the aggregate in log order, which is its whole
        log exactly when none of its events came in through a batch. */
    method GetByAggregate(aggregate: Id) returns (found: seq<Event?>)
      ensures found == ReadAt(events, Lookup(aggregates, aggregate))
      ensures Valid() ==> found == Selected(events, posted, aggregate, 0)
      ensures Valid() ==> (found == LogOf(events, aggregate) <==> FullyPosted(events, posted, aggregate))
    {
      var sequences := Lookup(aggregates, aggregate);
      found := [];
      for i := 0 to |sequences|
        invariant found == ReadAt(events, sequences[..i])
      {
        found := found + [EventAt(events, sequences[i])];
      }
      assert sequences[..|sequences|] == sequences;
      if Valid() {
        PostingsAreSound(AggregateIds(events), posted, aggregate);
        NumbersInRange(sequences, 0, |events|);
        PostingsSelect(events, posted, aggregate, 0);
        SelectedIsLogIff(events, posted, aggregate);
        assert found == At(events, sequences);
      }
    }

    /** The loop of `Replay` and `ReplayFrom`. */
    method Visit(sequences: seq<nat>, from: nat, accepts: Event -> bool) returns (handled: seq<Event>, ok: bool)
      requires sequence == |events| && InRange(sequences, |events|) && InRange(NumbersFrom(sequences, from), |events|)
      ensures Handled(At(events, NumbersFrom(sequences, from)), handled, ok, accepts)
    {
      handled, ok := [], true;
      NothingHandled(events, sequences, from, accepts);
      for i := 0 to |sequences|
        invariant ok && HandledSoFar(events, sequences, i, from, accepts, handled)
      {
        VisitNext(events, sequences, i, from, accepts, handled);
        var seqNo := sequences[i];
        if seqNo >= from && seqNo <= sequence {
          handled := handled + [events[seqNo - 1]];
          if !accepts(events[seqNo - 1]) {
            return handled, false;
          }
        }
      }
      assert sequences[..|sequences|] == sequences;
    }

    /** Hands the posted events of the aggregate from `from` on to the handler, in log order, until
        it refuses one. `Replay` is the case `from == 0`. */
    method ReplayFrom(aggregate: Id, from: nat, accepts: Event -> bool) returns (handled: seq<Event>, ok: bool)
      requires Valid()
      ensures Handled(Selected(events, posted, aggregate, from), handled, ok, accepts)
    {
      var sequences := Lookup(aggregates, aggregate);
      PostingsAreSound(AggregateIds(events), posted, aggregate);
      PostingsSelect(events, posted, aggregate, from);
      handled, ok := Visit(sequences, from, accepts);
    }
  }

  /** A restart: a fresh store over the file of any store, whatever its run was, has the same events,
      numbered from 1, with every one of them in both indexes. */
  method Reopen(s: EventStore) returns (t: EventStore)
    requires s.Valid()
    ensures t.Valid() && t.file == s.file && Numbered(t.events) && t.sequence == s.sequence
    ensures |t.events| == |s.events|
    ensures forall i :: 0 <= i < |t.events| ==> RecordOf(t.events[i], i + 1) == RecordOf(s.events[i], i + 1)
    ensures forall key :: FullyPosted(t.events, t.posted, key)
  {
    t := new EventStore.Open(s.file);
  }

  lemma UnpostedIsMissing(event: Event)
    ensures Selected([event], [false], event.aggregate, 0) == [] && LogOf([event], event.aggregate) == [event]
  {
    SelectedStep([], [], event, false, event.aggregate, 0);
    SelectedStep([], [], event, true, event.aggregate, 0);
    assert [] + [event] == [event] && AllPosted(1) == [true];
    assert [] + [false] == [false] && [] + [true] == [true];
  }

  /** One event stored in a batch: the log of its aggregate holds it, and reading the aggregate does not. */
  method BatchIsInvisible(id: Id, aggregate: Id, data: string) returns (found: seq<Event?>, ghost log: seq<Event>)
    ensures found == [] && |log| == 1 && log[0].aggregate == aggregate
  {
    var store := new EventStore();
    var event := new Event(id, aggregate, data, 0, 0);
    var ok := store.AppendBatch([event], 1);
    found := store.GetByAggregate(aggregate);
    log := LogOf(store.events, aggregate);
    assert store.events == [event] && store.posted == [false];
    UnpostedIsMissing(event);
  }

  /** One event appended twice: both slots show number 2. */
  method AppendedTwice(id: Id, aggregate: Id, data: string) returns (store: EventStore)
    ensures store.Valid() && |store.events| == 2 && !Numbered(store.events) && store.events[0].sequence == 2
  {
    store := new EventStore();
    var event := new Event(id, aggregate, data, 0, 0);
    var _ := store.Append(event, true);
    var _ := store.Append(event, true);
    assert store.events == [event, event];
  }

  /** A file whose only record carries number 2: reading its aggregate finds no event, and numbering
      goes on with 3. */
  method GappedFile(data: string) returns (store: EventStore, found: seq<Event?>)
    ensures |store.events| == 1 && store.sequence == 2 && found == [null]
  {
    store := new EventStore.Open([Record(7, 8, data, 2, 1)]);
    found := store.GetByAggregate(8);
    assert [Record(7, 8, data, 2, 1)][..0] == [];
    assert Listed([Record(7, 8, data, 2, 1)], AggregateOf, 8) == [2];
  }
}
