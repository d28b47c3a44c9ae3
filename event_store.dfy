/**
 * The event store (core/es/store.ts): event lists and read-event lists kept
 * under freshly generated event ids, snapshots kept under aggregate ids, a
 * version counter bumped by every save, and every operation's outcome, or
 * whatever it threw, turned into a `Result`.
 *
 * The id generator (`ulid`) is a parameter: each save is given one id per
 * event, in order.
 */
module EventStore {
  import opened Wrappers

  datatype ErrorTag = BaseTag | ConcurrencyTag | NotFoundTag | InvalidTag

  function TagText(t: ErrorTag): string {
    match t
    case BaseTag => "EventStoreError"
    case ConcurrencyTag => "ConcurrencyError"
    case NotFoundTag => "EventNotFoundError"
    case InvalidTag => "InvalidEventError"
  }

  /** An `EventStoreError` or one of its subclasses: its name, message and tag. */
  datatype StoreError = StoreError(name: string, message: string, tag: ErrorTag)

  function BaseError(message: string): StoreError {
    StoreError("EventStoreError", message, BaseTag)
  }

  function ConcurrencyError(): StoreError {
    StoreError("ConcurrencyError", "Concurrency conflict detected", ConcurrencyTag)
  }

  function EventNotFoundError(): StoreError {
    StoreError("EventNotFoundError", "Event not found", NotFoundTag)
  }

  function InvalidEventError(message: string): StoreError {
    StoreError("InvalidEventError", message, InvalidTag)
  }

  /** What a failing operation can throw. */
  datatype Thrown =
    | ThrownStoreError(error: StoreError)
    | ThrownError(message: string)
    | ThrownString(text: string)
    | ThrownOther

  /**
   * createStoreError: a store error passes through unchanged; an `Error`'s
   * message or a thrown string becomes a base store error; anything else is
   * an unknown error.
   */
  function CreateStoreError(thrown: Thrown): (e: StoreError)
    ensures thrown.ThrownStoreError? ==> e == thrown.error
    ensures !thrown.ThrownStoreError? ==> e.tag == BaseTag && e.name == TagText(BaseTag)
    ensures thrown.ThrownError? ==> e.message == thrown.message
    ensures thrown.ThrownString? ==> e.message == thrown.text
    ensures thrown.ThrownOther? ==> e.message == "Unknown error occurred"
  {
    match thrown
    case ThrownStoreError(error) => error
    case ThrownError(message) => BaseError(message)
    case ThrownString(text) => BaseError(text)
    case ThrownOther => BaseError("Unknown error occurred")
  }

  /** Normalising twice is normalising once. */
  lemma CreateStoreErrorIdempotent(thrown: Thrown)
    ensures CreateStoreError(ThrownStoreError(CreateStoreError(thrown))) == CreateStoreError(thrown)
    ensures CreateStoreError(thrown).tag != BaseTag ==> thrown.ThrownStoreError?
  {
  }

  /** How running an operation ended: it returned a value or it threw. */
  datatype Outcome<T> = Returned(value: T) | Threw(thrown: Thrown)

  /** tryCatch: `ok` of the returned value, `err` of the normalised throw. */
  function TryCatch<T>(outcome: Outcome<T>): (r: Result<T, StoreError>)
    ensures r.Ok? <==> outcome.Returned?
    ensures r.Ok? ==> r.value == outcome.value
    ensures r.Err? ==> r.error == CreateStoreError(outcome.thrown)
  {
    match outcome
    case Returned(v) => Ok(v)
    case Threw(thrown) => Err(CreateStoreError(thrown))
  }

  /** The list stored under `key`, or `[]`. */
  function ListAt<T>(m: map<string, seq<T>>, key: string): seq<T> {
    if key in m then m[key] else []
  }

  /** The event lists after save appended `events[i]` under `ids[i]`, one by one. */
  function Appended<T>(m: map<string, seq<T>>, events: seq<T>, ids: seq<string>): map<string, seq<T>>
    requires |ids| == |events|
    decreases |events|
  {
    if events == [] then m
    else
      var n := |events| - 1;
      var before := Appended(m, events[..n], ids[..n]);
      before[ids[n] := ListAt(before, ids[n]) + [events[n]]]
  }

  /** The read-event lists after saveReadEvent stored `[events[i]]` under `ids[i]`, one by one. */
  function Stored<T>(m: map<string, seq<T>>, events: seq<T>, ids: seq<string>): map<string, seq<T>>
    requires |ids| == |events|
    decreases |events|
  {
    if events == [] then m
    else
      var n := |events| - 1;
      Stored(m, events[..n], ids[..n])[ids[n] := [events[n]]]
  }

  /** The store state, over event, read-event and snapshot types. */
  class Store<E, R, S> {
    var events: map<string, seq<E>>
    var readEvents: map<string, seq<R>>
    var snapshots: map<string, Option<S>>
    var version: int

    /** The initial state: nothing stored, version 0. */
    constructor ()
      ensures events == map[] && readEvents == map[] && snapshots == map[] && version == 0
    {
      events := map[];
      readEvents := map[];
      snapshots := map[];
      version := 0;
    }

    /**
     * saveReadEvent: each read event is stored alone under its fresh id; the
     * event lists, the snapshots and the version do not change.
     */
    method SaveReadEvent(newEvents: seq<R>, ids: seq<string>) returns (r: Result<(), StoreError>)
      requires |ids| == |newEvents|
      modifies this
      ensures readEvents == Stored(old(readEvents), newEvents, ids)
      ensures events == old(events) && snapshots == old(snapshots) && version == old(version)
      ensures r == Ok(())
    {
      var newReadEvents := readEvents;
      var i := 0;
      while i < |newEvents|
        invariant 0 <= i <= |newEvents|
        invariant newReadEvents == Stored(readEvents, newEvents[..i], ids[..i])
      {
        assert newEvents[..i + 1][..i] == newEvents[..i] && ids[..i + 1][..i] == ids[..i];
        newReadEvents := newReadEvents[ids[i] := [newEvents[i]]];
        i := i + 1;
      }
      assert newEvents[..i] == newEvents && ids[..i] == ids;
      readEvents := newReadEvents;
      r := Ok(());
    }

    /**
     * save: each event is appended to the list under its fresh id, and the
     * version goes up by exactly one. The concurrency check compares a list's
     * length with itself and is proved never to fire, so save never fails.
     */
    method Save(newEvents: seq<E>, ids: seq<string>) returns (r: Result<(), StoreError>)
      requires |ids| == |newEvents|
      modifies this
      ensures events == Appended(old(events), newEvents, ids)
      ensures version == old(version) + 1
      ensures readEvents == old(readEvents) && snapshots == old(snapshots)
      ensures r == Ok(())
    {
      var updated := events;
      var i := 0;
      while i < |newEvents|
        invariant 0 <= i <= |newEvents|
        invariant updated == Appended(events, newEvents[..i], ids[..i])
      {
        assert newEvents[..i + 1][..i] == newEvents[..i] && ids[..i + 1][..i] == ids[..i];
        var eventId := ids[i];
        var currentEvents := ListAt(updated, eventId);
        var expectedVersion := |currentEvents|;
        if |currentEvents| > 0 && expectedVersion != |currentEvents| {
          assert false;
        }
        updated := updated[eventId := currentEvents + [newEvents[i]]];
        i := i + 1;
      }
      assert newEvents[..i] == newEvents && ids[..i] == ids;
      events := updated;
      version := version + 1;
      r := Ok(());
    }

    /** getEvents: a copy of the list under the id, `[]` for an unknown id. */
    method GetEvents(aggregateId: string) returns (r: Result<seq<E>, StoreError>)
      ensures r == Ok(ListAt(events, aggregateId))
      ensures aggregateId !in events ==> r == Ok([])
    {
      r := Ok(ListAt(events, aggregateId));
    }

    /** getSnapshot: the stored snapshot, or null when there is none or it is nullish. */
    method GetSnapshot(aggregateId: string) returns (r: Result<Option<S>, StoreError>)
      ensures r == Ok(SnapshotAt(snapshots, aggregateId))
    {
      r := Ok(SnapshotAt(snapshots, aggregateId));
    }

    /** saveSnapshot: the snapshot replaces whatever was stored under the id. */
    method SaveSnapshot(aggregateId: string, snapshot: Option<S>) returns (r: Result<(), StoreError>)
      modifies this
      ensures snapshots == old(snapshots)[aggregateId := snapshot]
      ensures events == old(events) && readEvents == old(readEvents) && version == old(version)
      ensures r == Ok(())
    {
      snapshots := snapshots[aggregateId := snapshot];
      r := Ok(());
    }
  }

  /** The snapshot getSnapshot reports: `snapshot ?? null`. */
  function SnapshotAt<S>(snapshots: map<string, Option<S>>, id: string): Option<S> {
    if id in snapshots then snapshots[id] else None
  }

  /**
   * A saved snapshot is the one read back, an id never saved reads as null,
   * and saving under one id leaves every other id's snapshot as it was.
   */
  lemma SnapshotRoundTrip<S>(snapshots: map<string, Option<S>>, id: string, snapshot: Option<S>, other: string)
    ensures SnapshotAt(snapshots[id := snapshot], id) == snapshot
    ensures other != id ==> SnapshotAt(snapshots[id := snapshot], other) == SnapshotAt(snapshots, other)
    ensures other !in snapshots ==> SnapshotAt(snapshots, other) == None
  {
  }

  /**
   * save touches only the keys it was given: any other key keeps its list
   * exactly, present or absent.
   */
  lemma {:induction false} AppendedKeepsOtherKeys<T>(m: map<string, seq<T>>, events: seq<T>, ids: seq<string>, key: string)
    requires |ids| == |events| && key !in ids
    ensures key in Appended(m, events, ids) <==> key in m
    ensures ListAt(Appended(m, events, ids), key) == ListAt(m, key)
    decreases |events|
  {
    if events != [] {
      var n := |events| - 1;
      assert key !in ids[..n];
      AppendedKeepsOtherKeys(m, events[..n], ids[..n], key);
    }
  }

  /**
   * With fresh, distinct ids (as the id generator gives), save files every
   * event alone under its own id.
   */
  lemma {:induction false} AppendedFresh<T>(m: map<string, seq<T>>, events: seq<T>, ids: seq<string>, i: nat)
    requires |ids| == |events| && i < |events|
    requires forall j :: 0 <= j < |ids| ==> ids[j] !in m
    requires forall j, k :: 0 <= j < k < |ids| ==> ids[j] != ids[k]
    ensures ids[i] in Appended(m, events, ids) && Appended(m, events, ids)[ids[i]] == [events[i]]
    decreases |events|
  {
    var n := |events| - 1;
    var before := Appended(m, events[..n], ids[..n]);
    if i == n {
      assert ids[n] !in ids[..n];
      AppendedKeepsOtherKeys(m, events[..n], ids[..n], ids[n]);
    } else {
      AppendedFresh(m, events[..n], ids[..n], i);
      assert ids[..n][i] == ids[i] && events[..n][i] == events[i];
    }
  }

  /**
   * Every event saved is in the store afterwards, as the last element of the
   * list under its id when no later event of the same save shares that id.
   */
  lemma {:induction false} AppendedLast<T>(m: map<string, seq<T>>, events: seq<T>, ids: seq<string>, i: nat)
    requires |ids| == |events| && i < |events|
    requires forall j :: i < j < |ids| ==> ids[j] != ids[i]
    ensures ids[i] in Appended(m, events, ids)
    ensures var l := Appended(m, events, ids)[ids[i]]; |l| > 0 && l[|l| - 1] == events[i]
    decreases |events|
  {
    var n := |events| - 1;
    if i < n {
      AppendedLast(m, events[..n], ids[..n], i);
      assert ids[..n][i] == ids[i] && events[..n][i] == events[i];
    }
  }

  /** saveReadEvent touches only the keys it was given. */
  lemma {:induction false} StoredKeepsOtherKeys<T>(m: map<string, seq<T>>, events: seq<T>, ids: seq<string>, key: string)
    requires |ids| == |events| && key !in ids
    ensures key in Stored(m, events, ids) <==> key in m
    ensures key in m ==> Stored(m, events, ids)[key] == m[key]
    decreases |events|
  {
    if events != [] {
      var n := |events| - 1;
      assert key !in ids[..n];
      StoredKeepsOtherKeys(m, events[..n], ids[..n], key);
    }
  }

  /**
   * saveReadEvent leaves each read event alone under its id, unless a later
   * event of the same call took that id.
   */
  lemma {:induction false} StoredLast<T>(m: map<string, seq<T>>, events: seq<T>, ids: seq<string>, i: nat)
    requires |ids| == |events| && i < |events|
    requires forall j :: i < j < |ids| ==> ids[j] != ids[i]
    ensures ids[i] in Stored(m, events, ids) && Stored(m, events, ids)[ids[i]] == [events[i]]
    decreases |events|
  {
    var n := |events| - 1;
    if i < n {
      StoredLast(m, events[..n], ids[..n], i);
      assert ids[..n][i] == ids[i] && events[..n][i] == events[i];
    }
  }
}
