/**
 What `saveData` writes to and `loadData` reads from the browser's storage
 slot `rouletteData`. The JSON text itself is not modelled: a snapshot is the
 record `JSON.parse` would return, with every field possibly missing, and the
 slot is either empty, unparsable, or holds such a record.
 */
module Persistence {
  import opened JsCollections
  import opened Selection
  import opened Views

  /** `avatars`: name -> emoji. */
  type Avatars = seq<(Name, string)>

  /** The saved record; `None` is a field that is missing (or falsy) in the stored JSON. */
  datatype Snapshot = Snapshot(
    participants: Option<seq<Name>>,
    allTimeParticipants: Option<seq<Name>>,
    stats: Option<Stats>,
    context: Option<string>,
    avatars: Option<Avatars>,
    penalties: Option<Penalties>)

  /** The content of the storage slot: nothing, text `JSON.parse` rejects, or a parsed record. */
  datatype Stored = Absent | Unparsable | Parsed(snapshot: Snapshot)

  /** The part of the application state that is saved and loaded. */
  datatype AppData = AppData(
    participants: seq<Name>,
    allTimeParticipants: seq<Name>,
    stats: Stats,
    context: string,
    avatars: Avatars,
    penalties: Penalties)

  /** What a JavaScript `Set` and `Map` guarantee: no element or key twice. */
  predicate WellFormed(d: AppData) {
    && Distinct(d.allTimeParticipants)
    && DistinctKeys(d.stats)
    && DistinctKeys(d.avatars)
    && DistinctKeys(d.penalties)
  }

  /** The state right after construction, before anything is loaded. */
  const Initial := AppData([], [], [], "", [], [])

  /** `saveData`: the roster as is, the set and the maps as lists of elements and entries. */
  function Save(d: AppData): (s: Snapshot)
    ensures s.participants.Some? && s.allTimeParticipants.Some? && s.stats.Some?
    ensures s.context.Some? && s.avatars.Some? && s.penalties.Some?
  {
    Snapshot(Some(d.participants), Some(d.allTimeParticipants), Some(d.stats),
             Some(d.context), Some(d.avatars), Some(d.penalties))
  }

  /**
   `loadData`: an empty or unparsable slot leaves the state as it was;
   otherwise every field is replaced, a missing one by its empty value, and
   the set and the maps are rebuilt from their lists.
   */
  function Load(d: AppData, stored: Stored): (r: AppData)
    ensures !stored.Parsed? ==> r == d
    ensures stored.Parsed? ==> WellFormed(r)
    ensures stored.Parsed? ==>
      var s := stored.snapshot;
      && (s.participants.None? ==> r.participants == [])
      && (s.allTimeParticipants.None? ==> r.allTimeParticipants == [])
      && (s.stats.None? ==> r.stats == [])
      && (s.context.None? ==> r.context == "")
      && (s.avatars.None? ==> r.avatars == [])
      && (s.penalties.None? ==> r.penalties == [])
    ensures stored.Parsed? && stored.snapshot.participants.Some? ==>
      r.participants == stored.snapshot.participants.value
    ensures stored.Parsed? && stored.snapshot.allTimeParticipants.Some? ==>
      forall x :: x in r.allTimeParticipants <==> x in stored.snapshot.allTimeParticipants.value
  {
    match stored
    case Parsed(s) =>
      AppData(
        s.participants.GetOr([]),
        FromArray(s.allTimeParticipants.GetOr([])),
        FromPairs(s.stats.GetOr([])),
        s.context.GetOr(""),
        FromPairs(s.avatars.GetOr([])),
        FromPairs(s.penalties.GetOr([])))
    case _ => d
  }

  /** Loading what was saved gives back exactly the saved state, whatever the state before. */
  lemma LoadSave(before: AppData, d: AppData)
    requires WellFormed(d)
    ensures Load(before, Parsed(Save(d))) == d
  {
    FromArrayOfElements(d.allTimeParticipants);
    FromPairsOfEntries(d.stats);
    FromPairsOfEntries(d.avatars);
    FromPairsOfEntries(d.penalties);
  }

  /** Saving again right after a load writes the same snapshot: save/load/save is a no-op. */
  lemma SaveLoadSave(before: AppData, d: AppData)
    requires WellFormed(d)
    ensures Save(Load(before, Parsed(Save(d)))) == Save(d)
  {
    LoadSave(before, d);
  }
}
