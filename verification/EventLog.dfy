/** Event logs, the posting lists over them, and the records on disk. Sequence numbers start at 1. */
module EventLogs {

  type Id = nat

  /** Events are shared objects: the store stamps the caller's object and keeps a reference to it. */
  class Event {
    const id: Id
    const aggregate: Id
    const data: string
    var sequence: nat
    var version: nat

    constructor (id: Id, aggregate: Id, data: string, sequence: nat, version: nat)
      ensures this.id == id && this.aggregate == aggregate && this.data == data
      ensures this.sequence == sequence && this.version == version
    {
      this.id, this.aggregate, this.data, this.sequence, this.version := id, aggregate, data, sequence, version;
    }
  }

  /** One line of the file. */
  datatype Record = Record(id: Id, aggregate: Id, data: string, sequence: nat, version: nat)

  type Index = map<Id, seq<nat>>

  /** The record that stands for event `e` at sequence number `n`. */
  function RecordOf(e: Event, n: nat): Record {
    Record(e.id, e.aggregate, e.data, n, 1)
  }

  /** The record holds event `e` under sequence number `n`; the version is never read. */
  ghost predicate Holds(r: Record, e: Event, n: nat) {
    r.id == e.id && r.aggregate == e.aggregate && r.data == e.data && r.sequence == n
  }

  /** A file as any run leaves it: numbered from 1 without a gap. */
  ghost predicate IsLog(file: seq<Record>) {
    forall i :: 0 <= i < |file| ==> file[i].sequence == i + 1
  }

  // ----- posting lists -----

  ghost function Ids(events: seq<Event>): seq<Id> {
    seq(|events|, i requires 0 <= i < |events| => events[i].id)
  }

  ghost function AggregateIds(events: seq<Event>): seq<Id> {
    seq(|events|, i requires 0 <= i < |events| => events[i].aggregate)
  }

  /** The sequence numbers of the posted entries with the given key. */
  ghost function Postings(keys: seq<Id>, posted: seq<bool>, key: Id): seq<nat>
    requires |posted| == |keys|
  {
    if keys == [] then []
    else
      var n := |keys| - 1;
      Postings(keys[..n], posted[..n], key) + (if posted[n] && keys[n] == key then [n + 1] else [])
  }

  function Lookup(index: Index, key: Id): seq<nat> {
    if key in index then index[key] else []
  }

  ghost predicate Indexes(index: Index, keys: seq<Id>, posted: seq<bool>)
    requires |posted| == |keys|
  {
    && (forall k :: Lookup(index, k) == Postings(keys, posted, k))
    && (forall k :: k in index ==> index[k] != [])
  }

  function Post(index: Index, key: Id, n: nat): Index {
    index[key := Lookup(index, key) + [n]]
  }

  lemma PostingsStep(keys: seq<Id>, posted: seq<bool>, key: Id, b: bool, k: Id)
    requires |posted| == |keys|
    ensures Postings(keys + [key], posted + [b], k)
         == if b && key == k then Postings(keys, posted, k) + [|keys| + 1] else Postings(keys, posted, k)
  {
    assert (keys + [key])[..|keys|] == keys && (posted + [b])[..|keys|] == posted;
  }

  lemma PostKeepsIndex(index: Index, keys: seq<Id>, posted: seq<bool>, key: Id)
    requires |posted| == |keys| && Indexes(index, keys, posted)
    ensures Indexes(Post(index, key, |keys| + 1), keys + [key], posted + [true])
  {
    forall k
      ensures Lookup(Post(index, key, |keys| + 1), k) == Postings(keys + [key], posted + [true], k)
    {
      PostingsStep(keys, posted, key, true, k);
      assert Lookup(index, k) == Postings(keys, posted, k);
    }
  }

  lemma SkipKeepsIndex(index: Index, keys: seq<Id>, posted: seq<bool>, key: Id)
    requires |posted| == |keys| && Indexes(index, keys, posted)
    ensures Indexes(index, keys + [key], posted + [false])
  {
    forall k
      ensures Lookup(index, k) == Postings(keys + [key], posted + [false], k)
    {
      PostingsStep(keys, posted, key, false, k);
      assert Lookup(index, k) == Postings(keys, posted, k);
    }
  }

  ghost predicate InRange(p: seq<nat>, n: nat) {
    forall i :: 0 <= i < |p| ==> 1 <= p[i] <= n
  }

  ghost predicate Increasing(p: seq<nat>) {
    forall i, j :: 0 <= i < j < |p| ==> p[i] < p[j]
  }

  /** Strictly increasing numbers of posted entries with the key. */
  ghost predicate IsSound(p: seq<nat>, keys: seq<Id>, posted: seq<bool>, key: Id)
    requires |posted| == |keys|
  {
    && Increasing(p) && InRange(p, |keys|)
    && forall i :: 0 <= i < |p| ==> posted[p[i] - 1] && keys[p[i] - 1] == key
  }

  lemma SoundOneMore(p: seq<nat>, keys: seq<Id>, posted: seq<bool>, key: Id)
    requires keys != [] && |posted| == |keys| && IsSound(p, keys[..|keys| - 1], posted[..|keys| - 1], key)
    ensures IsSound(p, keys, posted, key)
    ensures posted[|keys| - 1] && keys[|keys| - 1] == key ==> IsSound(p + [|keys|], keys, posted, key)
  {
  }

  /** A posting list is strictly increasing and names only posted entries with its key. */
  lemma {:induction false} PostingsAreSound(keys: seq<Id>, posted: seq<bool>, key: Id)
    requires |posted| == |keys|
    ensures IsSound(Postings(keys, posted, key), keys, posted, key)
  {
    if keys != [] {
      var n := |keys| - 1;
      PostingsAreSound(keys[..n], posted[..n], key);
      SoundOneMore(Postings(keys[..n], posted[..n], key), keys, posted, key);
    }
  }

  /** A posting list names every posted entry with its key. */
  lemma {:induction false} PostingsAreComplete(keys: seq<Id>, posted: seq<bool>, key: Id, n: nat)
    requires |posted| == |keys| && 1 <= n <= |keys| && posted[n - 1] && keys[n - 1] == key
    ensures n in Postings(keys, posted, key)
    decreases |keys|
  {
    var last := |keys| - 1;
    if n <= last {
      PostingsAreComplete(keys[..last], posted[..last], key, n);
    }
  }

  // ----- reading by aggregate -----

  /** The events whose numbers are listed. */
  ghost function At(events: seq<Event>, p: seq<nat>): seq<Event>
    requires InRange(p, |events|)
  {
    seq(|p|, i requires 0 <= i < |p| => events[p[i] - 1])
  }

  function EventAt(events: seq<Event>, n: nat): Event? {
    if 0 < n <= |events| then events[n - 1] else null
  }

  /** What is found at any numbers: there is no event at a number that is not in the log. */
  ghost function ReadAt(events: seq<Event>, p: seq<nat>): seq<Event?> {
    seq(|p|, i requires 0 <= i < |p| => EventAt(events, p[i]))
  }

  /** The log, filtered: the posted events of one aggregate from one number on, in order. */
  ghost function Selected(events: seq<Event>, posted: seq<bool>, key: Id, from: nat): seq<Event>
    requires |posted| == |events|
  {
    if events == [] then []
    else
      var n := |events| - 1;
      Selected(events[..n], posted[..n], key, from)
        + (if posted[n] && events[n].aggregate == key && n + 1 >= from then [events[n]] else [])
  }

  /** The numbers of a list from a given one on. */
  ghost function NumbersFrom(p: seq<nat>, from: nat): seq<nat> {
    if p == [] then []
    else NumbersFrom(p[..|p| - 1], from) + (if p[|p| - 1] >= from then [p[|p| - 1]] else [])
  }

  lemma {:induction false} NumbersInRange(p: seq<nat>, from: nat, n: nat)
    requires InRange(p, n)
    ensures InRange(NumbersFrom(p, from), n)
    ensures from == 0 ==> NumbersFrom(p, from) == p
  {
    if p != [] {
      NumbersInRange(p[..|p| - 1], from, n);
      assert p == p[..|p| - 1] + [p[|p| - 1]];
    }
  }

  lemma NumbersStep(p: seq<nat>, n: nat, from: nat)
    ensures NumbersFrom(p + [n], from) == if n >= from then NumbersFrom(p, from) + [n] else NumbersFrom(p, from)
  {
    assert (p + [n])[..|p|] == p;
  }

  ghost predicate FollowsLog(events: seq<Event>, posted: seq<bool>, key: Id, from: nat)
    requires |posted| == |events|
  {
    var p := NumbersFrom(Postings(AggregateIds(events), posted, key), from);
    InRange(p, |events|) && At(events, p) == Selected(events, posted, key, from)
  }

  lemma AtOneMore(before: seq<Event>, e: Event, p: seq<nat>)
    requires InRange(p, |before|)
    ensures InRange(p + [|before| + 1], |before| + 1)
    ensures At(before + [e], p) == At(before, p)
    ensures At(before + [e], p + [|before| + 1]) == At(before, p) + [e]
  {
  }

  lemma SelectedStep(events: seq<Event>, posted: seq<bool>, e: Event, b: bool, key: Id, from: nat)
    requires |posted| == |events|
    ensures var s := Selected(events, posted, key, from);
            Selected(events + [e], posted + [b], key, from)
              == if b && e.aggregate == key && |events| + 1 >= from then s + [e] else s
  {
    assert (events + [e])[..|events|] == events && (posted + [b])[..|posted|] == posted;
  }

  lemma FollowsOneMore(events: seq<Event>, posted: seq<bool>, e: Event, b: bool, key: Id, from: nat)
    requires |posted| == |events| && FollowsLog(events, posted, key, from)
    ensures FollowsLog(events + [e], posted + [b], key, from)
  {
    var keys, n := AggregateIds(events), |events| + 1;
    assert AggregateIds(events + [e]) == keys + [e.aggregate];
    PostingsStep(keys, posted, e.aggregate, b, key);
    SelectedStep(events, posted, e, b, key, from);
    var p := Postings(keys, posted, key);
    var q := NumbersFrom(p, from);
    NumbersStep(p, n, from);
    AtOneMore(events, e, q);
    var q' := NumbersFrom(Postings(keys + [e.aggregate], posted + [b], key), from);
    if b && e.aggregate == key && n >= from {
      assert q' == q + [n];
    } else {
      assert q' == q;
    }
  }

  /** Following a posting list visits the filtered log. */
  lemma {:induction false} PostingsSelect(events: seq<Event>, posted: seq<bool>, key: Id, from: nat)
    requires |posted| == |events|
    ensures FollowsLog(events, posted, key, from)
  {
    if events != [] {
      var n := |events| - 1;
      PostingsSelect(events[..n], posted[..n], key, from);
      FollowsOneMore(events[..n], posted[..n], events[n], posted[n], key, from);
      assert events[..n] + [events[n]] == events && posted[..n] + [posted[n]] == posted;
    }
  }

  // ----- what a complete index promises -----

  ghost function AllPosted(n: nat): seq<bool> {
    seq(n, i => true)
  }

  /** All events of one aggregate, posted or not. */
  ghost function LogOf(events: seq<Event>, key: Id): seq<Event> {
    Selected(events, AllPosted(|events|), key, 0)
  }

  /** No event of this aggregate is missing from the index. */
  ghost predicate FullyPosted(events: seq<Event>, posted: seq<bool>, key: Id)
    requires |posted| == |events|
  {
    forall i :: 0 <= i < |events| && events[i].aggregate == key ==> posted[i]
  }

  /** The indexed events are the whole log of the aggregate exactly when none of them came in
      through a batch. */
  lemma {:induction false} SelectedIsLogIff(events: seq<Event>, posted: seq<bool>, key: Id)
    requires |posted| == |events|
    ensures |Selected(events, posted, key, 0)| <= |LogOf(events, key)|
    ensures Selected(events, posted, key, 0) == LogOf(events, key) <==> FullyPosted(events, posted, key)
    ensures |Selected(events, posted, key, 0)| == |LogOf(events, key)| ==> FullyPosted(events, posted, key)
  {
    if events != [] {
      var n := |events| - 1;
      SelectedIsLogIff(events[..n], posted[..n], key);
      assert AllPosted(|events|)[..n] == AllPosted(n);
      assert FullyPosted(events, posted, key) <==>
        FullyPosted(events[..n], posted[..n], key) && (events[n].aggregate == key ==> posted[n]);
    }
  }

  /** Reading from a number on is the end of reading everything. */
  lemma {:induction false} SelectedFromIsTail(events: seq<Event>, posted: seq<bool>, key: Id, from: nat)
    returns (k: nat)
    requires |posted| == |events|
    ensures var all := Selected(events, posted, key, 0);
            k <= |all| && Selected(events, posted, key, from) == all[k..]
    ensures |events| < from ==> Selected(events, posted, key, from) == []
  {
    if events == [] {
      k := 0;
    } else {
      var n := |events| - 1;
      k := SelectedFromIsTail(events[..n], posted[..n], key, from);
      if n + 1 < from {
        k := |Selected(events, posted, key, 0)|;
      }
    }
  }

  // ----- numbering -----

  /** Every event object carries the number of the slot that refers to it. */
  ghost predicate Numbered(events: seq<Event>)
    reads events
  {
    forall i {:trigger events[i].sequence} :: 0 <= i < |events| ==> events[i].sequence == i + 1
  }

  ghost predicate NoRepeats(events: seq<Event>) {
    forall i, j :: 0 <= i < j < |events| ==> events[i] != events[j]
  }

  /** The handler was given `all` in order: everything, or everything up to the first refusal. */
  ghost predicate Handled(all: seq<Event>, handled: seq<Event>, ok: bool, accepts: Event -> bool) {
    if ok then handled == all && forall k :: 0 <= k < |all| ==> accepts(all[k])
    else
      && 0 < |handled| <= |all| && handled == all[..|handled|]
      && !accepts(all[|handled| - 1])
      && forall k :: 0 <= k < |handled| - 1 ==> accepts(all[k])
  }

  /** The events read back from the records. */
  ghost predicate Reads(events: seq<Event>, log: seq<Record>)
    reads events
  {
    && |events| == |log|
    && forall i :: 0 <= i < |log| ==>
         log[i] == Record(events[i].id, events[i].aggregate, events[i].data, events[i].sequence, events[i].version)
  }

  function IdOf(r: Record): Id { r.id }

  function AggregateOf(r: Record): Id { r.aggregate }

  /** The sequence numbers that the records with a key carry, in file order. */
  ghost function Listed(log: seq<Record>, keyOf: Record -> Id, key: Id): seq<nat> {
    if log == [] then []
    else
      var r := log[|log| - 1];
      Listed(log[..|log| - 1], keyOf, key) + (if keyOf(r) == key then [r.sequence] else [])
  }

  /** The records list under a key the slots that hold it. */
  ghost predicate ListsSlotsOf(log: seq<Record>, keyOf: Record -> Id, keys: seq<Id>, key: Id)
    requires |keys| == |log|
  {
    Listed(log, keyOf, key) == Postings(keys, AllPosted(|log|), key)
  }

  ghost predicate ListsSlots(log: seq<Record>, keyOf: Record -> Id, keys: seq<Id>)
    requires |keys| == |log|
  {
    forall key :: ListsSlotsOf(log, keyOf, keys, key)
  }

  lemma ListsOneMore(log: seq<Record>, keyOf: Record -> Id, keys: seq<Id>, key: Id)
    requires log != [] && |keys| == |log| && keyOf(log[|log| - 1]) == keys[|log| - 1]
    ensures var n := |log| - 1;
            ListsSlotsOf(log, keyOf, keys, key)
            <==> ListsSlotsOf(log[..n], keyOf, keys[..n], key) && (keys[n] == key ==> log[n].sequence == n + 1)
  {
    var n := |log| - 1;
    assert AllPosted(|log|)[..n] == AllPosted(n);
    var a, b := Listed(log[..n], keyOf, key), Postings(keys[..n], AllPosted(n), key);
    if keys[n] == key {
      assert (a + [log[n].sequence])[..|a|] == a && (b + [n + 1])[..|b|] == b;
      assert a + [log[n].sequence] == b + [n + 1] ==> |a| == |b| && (a + [log[n].sequence])[|a|] == (b + [n + 1])[|b|];
    } else {
      assert a + [] == a && b + [] == b;
    }
  }

  /** They do so for every key if and only if they are numbered from 1 without a gap. */
  lemma {:induction false} ListsSlotsIff(log: seq<Record>, keyOf: Record -> Id, keys: seq<Id>)
    requires |keys| == |log| && forall i :: 0 <= i < |log| ==> keyOf(log[i]) == keys[i]
    ensures ListsSlots(log, keyOf, keys) <==> IsLog(log)
  {
    if log != [] {
      var n := |log| - 1;
      ListsSlotsIff(log[..n], keyOf, keys[..n]);
      forall key
        ensures ListsSlotsOf(log, keyOf, keys, key)
           <==> ListsSlotsOf(log[..n], keyOf, keys[..n], key) && (keys[n] == key ==> log[n].sequence == n + 1)
      {
        ListsOneMore(log, keyOf, keys, key);
      }
      assert ListsSlots(log, keyOf, keys) ==> ListsSlotsOf(log, keyOf, keys, keys[n]);
      assert IsLog(log) <==> IsLog(log[..n]) && log[n].sequence == n + 1;
    }
  }

  /** Numbering goes on after the last record, and both indexes list the numbers of the records. */
  ghost predicate IndexesLog(index: Index, aggregates: Index, sequence: nat, log: seq<Record>) {
    && sequence == (if log == [] then 0 else log[|log| - 1].sequence)
    && (forall key :: Lookup(index, key) == Listed(log, IdOf, key))
    && (forall key :: Lookup(aggregates, key) == Listed(log, AggregateOf, key))
  }

  lemma ListedOneMore(log: seq<Record>, r: Record, keyOf: Record -> Id, index: Index)
    requires forall key :: Lookup(index, key) == Listed(log, keyOf, key)
    ensures forall key :: Lookup(Post(index, keyOf(r), r.sequence), key) == Listed(log + [r], keyOf, key)
  {
    assert (log + [r])[..|log|] == log;
  }

  lemma IndexesOneMore(index: Index, aggregates: Index, sequence: nat, log: seq<Record>, r: Record)
    requires IndexesLog(index, aggregates, sequence, log)
    ensures IndexesLog(Post(index, r.id, r.sequence), Post(aggregates, r.aggregate, r.sequence), r.sequence, log + [r])
  {
    ListedOneMore(log, r, IdOf, index);
    ListedOneMore(log, r, AggregateOf, aggregates);
  }

  lemma ReadsOneMore(events: seq<Event>, log: seq<Record>, event: Event, r: Record)
    requires Reads(events, log) && NoRepeats(events) && event !in events
    requires r == Record(event.id, event.aggregate, event.data, event.sequence, event.version)
    ensures Reads(events + [event], log + [r]) && NoRepeats(events + [event])
  {
  }

  lemma PrefixIsLog(log: seq<Record>, r: Record)
    requires IsLog(log + [r])
    ensures IsLog(log) && r.sequence == |log| + 1
  {
    var all := log + [r];
    assert all[|log|] == r && forall i :: 0 <= i < |log| ==> all[i] == log[i];
  }

  /** Both indexes agree with the log. */
  ghost predicate Indexed(index: Index, aggregates: Index, events: seq<Event>, posted: seq<bool>) {
    |posted| == |events| && Indexes(index, Ids(events), posted) && Indexes(aggregates, AggregateIds(events), posted)
  }

  lemma PostOneMore(index: Index, aggregates: Index, events: seq<Event>, posted: seq<bool>, event: Event)
    requires event.sequence == |events| + 1 && Indexed(index, aggregates, events, posted)
    ensures Indexed(Post(index, event.id, event.sequence), Post(aggregates, event.aggregate, event.sequence),
                    events + [event], posted + [true])
  {
    assert Ids(events + [event]) == Ids(events) + [event.id];
    assert AggregateIds(events + [event]) == AggregateIds(events) + [event.aggregate];
    PostKeepsIndex(index, Ids(events), posted, event.id);
    PostKeepsIndex(aggregates, AggregateIds(events), posted, event.aggregate);
  }

  /** No object carries a number below a slot that refers to it. */
  ghost predicate Raised(events: seq<Event>)
    reads events
  {
    forall i {:trigger events[i].sequence} :: 0 <= i < |events| ==> i + 1 <= events[i].sequence
  }

  lemma NumberedOneMore(events: seq<Event>, event: Event)
    requires event.sequence == |events| + 1 && Raised(events)
    ensures Raised(events + [event]) && (Numbered(events + [event]) <==> Numbered(events))
  {
    var all := events + [event];
    assert forall i :: 0 <= i < |events| ==> all[i] == events[i];
  }

  /** An object is stamped with the next number; it is stored unless it cannot be written. */
  datatype Stamping = Stamping(event: Event, stored: bool)

  ghost function StoredBy(stampings: seq<Stamping>): seq<Event> {
    if stampings == [] then []
    else
      var last := stampings[|stampings| - 1];
      StoredBy(stampings[..|stampings| - 1]) + (if last.stored then [last.event] else [])
  }

  ghost predicate IsRestamped(stampings: seq<Stamping>, i: nat)
    requires i < |stampings|
  {
    stampings[i].event in StoredBy(stampings[..i])
  }

  /** Some object was stamped while the log referred to it. */
  ghost predicate Restamps(stampings: seq<Stamping>) {
    exists i: nat :: i < |stampings| && IsRestamped(stampings, i)
  }

  lemma RestampsOneMore(stampings: seq<Stamping>, last: Stamping)
    ensures var all := stampings + [last];
            && StoredBy(all) == StoredBy(stampings) + (if last.stored then [last.event] else [])
            && (Restamps(all) <==> Restamps(stampings) || last.event in StoredBy(stampings))
  {
    var all := stampings + [last];
    assert all[..|stampings|] == stampings && all[|stampings|] == last;
    forall i: nat | i < |stampings| ensures IsRestamped(all, i) <==> IsRestamped(stampings, i) {
      assert all[..i] == stampings[..i] && all[i] == stampings[i];
    }
    assert IsRestamped(all, |stampings|) <==> last.event in StoredBy(stampings);
    if Restamps(all) && last.event !in StoredBy(stampings) {
      var i: nat :| i < |all| && IsRestamped(all, i);
      assert IsRestamped(stampings, i);
    }
    if Restamps(stampings) {
      var i: nat :| i < |stampings| && IsRestamped(stampings, i);
      assert IsRestamped(all, i);
    }
  }

  /** The log is what the stampings stored, and is numbered exactly if none of them hit it. */
  ghost predicate IsTrace(events: seq<Event>, stampings: seq<Stamping>)
    reads events
  {
    events == StoredBy(stampings) && Raised(events) && (Numbered(events) <==> !Restamps(stampings))
  }

  lemma TraceOneMore(events: seq<Event>, stampings: seq<Stamping>, last: Stamping)
    requires events == StoredBy(stampings) && Raised(events)
    requires Numbered(events) <==> !Restamps(stampings) && last.event !in events
    requires last.event.sequence == |events| + 1
    ensures IsTrace(if last.stored then events + [last.event] else events, stampings + [last])
  {
    RestampsOneMore(stampings, last);
    NumberedOneMore(events, last.event);
  }

  /** Reading events back counts as stamping and storing each of them. */
  ghost function AllStored(events: seq<Event>): seq<Stamping> {
    seq(|events|, i requires 0 <= i < |events| => Stamping(events[i], true))
  }

  lemma {:induction false} StoredByAll(events: seq<Event>)
    ensures StoredBy(AllStored(events)) == events
  {
    if events != [] {
      var n := |events| - 1;
      StoredByAll(events[..n]);
      assert AllStored(events)[..n] == AllStored(events[..n]);
    }
  }

  lemma ReadBackIsTrace(events: seq<Event>)
    requires Numbered(events) && NoRepeats(events)
    ensures IsTrace(events, AllStored(events))
  {
    StoredByAll(events);
    forall i: nat | i < |events| ensures !IsRestamped(AllStored(events), i) {
      StoredByAll(events[..i]);
      assert AllStored(events)[..i] == AllStored(events[..i]);
    }
  }

  // ----- the state of a store -----

  /** What every run keeps, whatever objects the callers pass: the log, the file and the sequence agree,
      and the posting lists name exactly the events that were posted. */
  ghost predicate IsStore(file: seq<Record>, events: seq<Event>, sequence: nat, index: Index, aggregates: Index,
                          posted: seq<bool>) {
    && |events| == |file| == |posted| == sequence
    && (forall i :: 0 <= i < |events| ==> Holds(file[i], events[i], i + 1))
    && Indexes(index, Ids(events), posted)
    && Indexes(aggregates, AggregateIds(events), posted)
  }

  /** The state after reading `log`: numbering goes on after the last record, and both indexes list the
      numbers that the records carry. */
  ghost predicate IsLoaded(log: seq<Record>, events: seq<Event>, sequence: nat, index: Index, aggregates: Index,
                           posted: seq<bool>)
    reads events
  {
    && Reads(events, log) && NoRepeats(events) && posted == AllPosted(|log|)
    && IndexesLog(index, aggregates, sequence, log)
    && (IsLog(log) ==> Indexed(index, aggregates, events, posted))
  }

  lemma LoadedOneMore(log: seq<Record>, events: seq<Event>, sequence: nat, index: Index, aggregates: Index,
                      posted: seq<bool>, event: Event, r: Record)
    requires IsLoaded(log, events, sequence, index, aggregates, posted) && event !in events
    requires r == Record(event.id, event.aggregate, event.data, event.sequence, event.version)
    ensures IsLoaded(log + [r], events + [event], r.sequence, Post(index, r.id, r.sequence),
                     Post(aggregates, r.aggregate, r.sequence), posted + [true])
  {
    IndexesOneMore(index, aggregates, sequence, log, r);
    ReadsOneMore(events, log, event, r);
    if IsLog(log + [r]) {
      PrefixIsLog(log, r);
      PostOneMore(index, aggregates, events, posted, event);
    }
  }

  /** An index lists under each key the slots of its events. */
  ghost predicate FindsSlots(index: Index, keys: seq<Id>, posted: seq<bool>)
    requires |keys| == |posted|
  {
    forall key :: Lookup(index, key) == Postings(keys, posted, key)
  }

  lemma FindsSlotsIff(log: seq<Record>, keyOf: Record -> Id, keys: seq<Id>, index: Index)
    requires |keys| == |log| && forall i :: 0 <= i < |log| ==> keyOf(log[i]) == keys[i]
    requires forall key :: Lookup(index, key) == Listed(log, keyOf, key)
    ensures FindsSlots(index, keys, AllPosted(|log|)) <==> IsLog(log)
  {
    ListsSlotsIff(log, keyOf, keys);
    forall key
      ensures ListsSlotsOf(log, keyOf, keys, key) <==> Lookup(index, key) == Postings(keys, AllPosted(|log|), key)
    {
    }
  }

  /** After loading, each index finds the slots of the events exactly when the file is numbered from 1
      without a gap; then the store is one that a run can leave. */
  lemma LoadedIff(log: seq<Record>, events: seq<Event>, sequence: nat, index: Index, aggregates: Index,
                  posted: seq<bool>)
    requires IsLoaded(log, events, sequence, index, aggregates, posted)
    ensures |posted| == |events|
    ensures FindsSlots(index, Ids(events), posted) <==> IsLog(log)
    ensures FindsSlots(aggregates, AggregateIds(events), posted) <==> IsLog(log)
    ensures IsLog(log) ==> IsStore(log, events, sequence, index, aggregates, posted) && Numbered(events)
  {
    FindsSlotsIff(log, IdOf, Ids(events), index);
    FindsSlotsIff(log, AggregateOf, AggregateIds(events), aggregates);
  }

  /** What a batch stamps: as many events as can be written, and the next one. */
  ghost function BatchStampings(batch: seq<Event>, writable: nat): seq<Stamping> {
    if |batch| <= writable then seq(|batch|, i requires 0 <= i < |batch| => Stamping(batch[i], true))
    else seq(writable, i requires 0 <= i < writable => Stamping(batch[i], true)) + [Stamping(batch[writable], false)]
  }

  lemma BatchStampingsStep(batch: seq<Event>, i: nat)
    requires i < |batch|
    ensures BatchStampings(batch[..i + 1], i + 1) == BatchStampings(batch[..i], i) + [Stamping(batch[i], true)]
    ensures BatchStampings(batch, i) == BatchStampings(batch[..i], i) + [Stamping(batch[i], false)]
  {
  }

  lemma BatchStampingsEnd(batch: seq<Event>, writable: nat)
    requires |batch| <= writable
    ensures BatchStampings(batch, writable) == BatchStampings(batch, |batch|)
  {
  }

  // ----- visiting -----

  lemma {:induction false} NumbersConcat(p: seq<nat>, q: seq<nat>, from: nat)
    ensures NumbersFrom(p + q, from) == NumbersFrom(p, from) + NumbersFrom(q, from)
  {
    if q == [] {
      assert p + q == p;
    } else {
      assert (p + q)[..|p + q| - 1] == p + q[..|q| - 1];
      NumbersConcat(p, q[..|q| - 1], from);
    }
  }

  /** The numbers visited so far are the beginning of all numbers that will be visited. */
  lemma Visited(p: seq<nat>, i: nat, from: nat, n: nat)
    requires i < |p| && InRange(p, n)
    ensures var q, all := NumbersFrom(p[..i], from), NumbersFrom(p, from);
            && NumbersFrom(p[..i + 1], from) == (if p[i] >= from then q + [p[i]] else q)
            && |NumbersFrom(p[..i + 1], from)| <= |all|
            && NumbersFrom(p[..i + 1], from) == all[..|NumbersFrom(p[..i + 1], from)|]
            && InRange(NumbersFrom(p[..i + 1], from), n)
  {
    assert p == p[..i + 1] + p[i + 1..] && p[..i + 1] == p[..i] + [p[i]];
    NumbersConcat(p[..i + 1], p[i + 1..], from);
    NumbersStep(p[..i], p[i], from);
    NumbersInRange(p[..i + 1], from, n);
  }

  ghost predicate AcceptedSoFar(events: seq<Event>, p: seq<nat>, i: nat, from: nat, accepts: Event -> bool)
    requires i <= |p|
  {
    var q := NumbersFrom(p[..i], from);
    InRange(q, |events|) && forall k :: 0 <= k < |q| ==> accepts(events[q[k] - 1])
  }

  /** The first `i` numbers have been visited, and every event was accepted. */
  ghost predicate HandledSoFar(events: seq<Event>, p: seq<nat>, i: nat, from: nat, accepts: Event -> bool,
                               handled: seq<Event>)
    requires i <= |p|
  {
    AcceptedSoFar(events, p, i, from, accepts) && handled == At(events, NumbersFrom(p[..i], from))
  }

  lemma NothingHandled(events: seq<Event>, p: seq<nat>, from: nat, accepts: Event -> bool)
    ensures HandledSoFar(events, p, 0, from, accepts, [])
  {
  }

  lemma AcceptOneMore(events: seq<Event>, q: seq<nat>, n: nat, accepts: Event -> bool)
    requires InRange(q, |events|) && 0 < n <= |events| && forall k :: 0 <= k < |q| ==> accepts(events[q[k] - 1])
    ensures InRange(q + [n], |events|) && At(events, q + [n]) == At(events, q) + [events[n - 1]]
    ensures accepts(events[n - 1]) ==>
      forall k :: 0 <= k < |q + [n]| ==> accepts(events[(q + [n])[k] - 1])
  {
    var r := q + [n];
    assert forall k :: 0 <= k < |q| ==> r[k] == q[k];
    assert r[|q|] == n;
  }

  lemma RefusedAt(events: seq<Event>, q: seq<nat>, n: nat, all: seq<nat>, accepts: Event -> bool)
    requires InRange(all, |events|) && |q| < |all| && q + [n] == all[..|q| + 1] && 0 < n <= |events|
    requires InRange(q, |events|) && !accepts(events[n - 1])
    requires forall k :: 0 <= k < |q| ==> accepts(events[q[k] - 1])
    ensures Handled(At(events, all), At(events, q) + [events[n - 1]], false, accepts)
  {
    assert all[|q|] == n && forall k :: 0 <= k < |q| ==> all[k] == q[k];
  }

  /** One number on: it is skipped, its event is accepted, or the visit ends with its refusal. */
  lemma VisitNext(events: seq<Event>, p: seq<nat>, i: nat, from: nat, accepts: Event -> bool, handled: seq<Event>)
    requires i < |p| && InRange(p, |events|) && InRange(NumbersFrom(p, from), |events|)
    requires HandledSoFar(events, p, i, from, accepts, handled)
    ensures p[i] < from ==> HandledSoFar(events, p, i + 1, from, accepts, handled)
    ensures p[i] >= from && accepts(events[p[i] - 1]) ==>
      HandledSoFar(events, p, i + 1, from, accepts, handled + [events[p[i] - 1]])
    ensures p[i] >= from && !accepts(events[p[i] - 1]) ==>
      Handled(At(events, NumbersFrom(p, from)), handled + [events[p[i] - 1]], false, accepts)
  {
    Visited(p, i, from, |events|);
    if p[i] >= from {
      var q, n, all := NumbersFrom(p[..i], from), p[i], NumbersFrom(p, from);
      AcceptOneMore(events, q, n, accepts);
      if !accepts(events[n - 1]) {
        RefusedAt(events, q, n, all, accepts);
      }
    }
  }
}
