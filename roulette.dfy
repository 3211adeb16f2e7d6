/**
 The `RouletteApp` object: the roster, the statistics, the penalties for the
 next spin, the avatars, every name ever added and the storage slot, with the
 operations the page triggers. Page rendering, alerts and animation are not
 part of the model; what a user types is passed in as a parameter, as are the
 random numbers (`u` for the draw, `emoji` for a new avatar).
 */
module Roulette {
  import opened JsCollections
  import opened Text
  import opened Selection
  import opened Views
  import opened Persistence

  /** The roster limit of a new app. */
  const DefaultMaxParticipants: nat := 30

  /** How `addParticipant` ends: the name is added, or one of its three alerts. */
  datatype AddOutcome = Added | EmptyName | RosterFull | DuplicateName

  /** The checks of `addParticipant` on the trimmed name, in the order it makes them. */
  function CheckAdd(name: Name, roster: seq<Name>, max: nat): (outcome: AddOutcome)
    ensures outcome == Added <==> name != [] && |roster| < max && name !in roster
    ensures outcome == EmptyName <==> name == []
    ensures outcome == RosterFull <==> name != [] && |roster| >= max
  {
    if name == [] then EmptyName
    else if |roster| >= max then RosterFull
    else if name in roster then DuplicateName
    else Added
  }

  /** The animals `generateRandomEmoji` picks from. */
  const AnimalEmoji: seq<string> := [
    "\U{1F436}", "\U{1F431}", "\U{1F42D}", "\U{1F439}", "\U{1F430}", "\U{1F98A}", "\U{1F43B}",
    "\U{1F43C}", "\U{1F428}", "\U{1F42F}", "\U{1F981}", "\U{1F437}", "\U{1F438}", "\U{1F435}",
    "\U{1F984}", "\U{1F414}", "\U{1F427}", "\U{1F426}", "\U{1F424}"]

  /** The avatar a card shows when none is stored (or the stored one is empty). */
  const FallbackAvatar: string := "\U{1F642}"

  /** `generateRandomEmoji` for the random number `u`: always one of the animals. */
  function RandomEmoji(u: real): (e: string)
    requires 0.0 <= u < 1.0
    ensures e in AnimalEmoji
  {
    AnimalEmoji[DrawIndex(u, |AnimalEmoji|)]
  }

  /** The avatar on a participant's card: the stored one, or the fallback; never empty. */
  function AvatarOf(avatars: Avatars, name: Name): (a: string)
    ensures a != []
    ensures a == FallbackAvatar || Lookup(avatars, name) == Some(a)
    ensures Lookup(avatars, name).None? ==> a == FallbackAvatar
  {
    match Lookup(avatars, name)
    case Some(stored) => if stored != [] then stored else FallbackAvatar
    case None => FallbackAvatar
  }

  /**
   A participant added for the first time gets the avatar `emoji`; one who
   already has an avatar keeps it, even after being removed and added again.
   */
  function AssignAvatar(avatars: Avatars, name: Name, emoji: string): (r: Avatars)
    ensures Lookup(avatars, name).Some? ==> r == avatars
    ensures Lookup(avatars, name).None? ==> r == avatars + [(name, emoji)] && Lookup(r, name) == Some(emoji)
    ensures forall n :: n != name ==> Lookup(r, n) == Lookup(avatars, n)
    ensures DistinctKeys(avatars) ==> DistinctKeys(r)
  {
    if Lookup(avatars, name).Some? then avatars
    else
      PutKeys(avatars, name, emoji);
      assert forall n :: Lookup(Put(avatars, name, emoji), n) == if n == name then Some(emoji) else Lookup(avatars, n) by {
        forall n ensures Lookup(Put(avatars, name, emoji), n) == if n == name then Some(emoji) else Lookup(avatars, n) {
          PutLookup(avatars, name, emoji, n);
        }
      }
      assert DistinctKeys(avatars) ==> DistinctKeys(avatars + [(name, emoji)]) by {
        if DistinctKeys(avatars) {
          PutKeepsKeysDistinct(avatars, name, emoji);
        }
      }
      avatars + [(name, emoji)]
  }

  class RouletteApp {
    var participants: seq<Name>
    var nextSpinPenalty: Penalties
    var stats: Stats
    var allTimeParticipants: seq<Name>
    const maxParticipants: nat
    var avatars: Avatars
    /** The text of the context input field. */
    var context: string
    /** The storage slot `rouletteData`. */
    var storage: Stored

    /** The saved part of the state. */
    function Data(): AppData
      reads this
    {
      AppData(participants, allTimeParticipants, stats, context, avatars, nextSpinPenalty)
    }

    /** The set and the maps hold no element or key twice. */
    ghost predicate Valid()
      reads this
    {
      WellFormed(Data())
    }

    /** The roster has no duplicates and respects the limit. */
    ghost predicate RosterOk()
      reads this
    {
      Distinct(participants) && |participants| <= maxParticipants
    }

    /** The storage slot holds the current state. */
    ghost predicate Persisted()
      reads this
    {
      storage == Parsed(Save(Data()))
    }

    /** A new app over the storage slot `stored`: empty state, then `loadData`. */
    constructor (stored: Stored)
      ensures Valid() && maxParticipants == DefaultMaxParticipants
      ensures Data() == Load(Initial, stored)
      ensures storage == stored
    {
      participants := [];
      nextSpinPenalty := [];
      stats := [];
      allTimeParticipants := [];
      maxParticipants := DefaultMaxParticipants;
      avatars := [];
      context := "";
      storage := stored;
      new;
      LoadData();
    }

    /** `loadData`: replaces the state by the stored snapshot, if the slot holds a parsable one. */
    method LoadData()
      requires Valid()
      modifies this
      ensures Valid()
      ensures Data() == Load(old(Data()), old(storage))
      ensures storage == old(storage)
    {
      if storage.Parsed? {
        var s := storage.snapshot;
        participants := s.participants.GetOr([]);
        allTimeParticipants := FromArray(s.allTimeParticipants.GetOr([]));
        stats := FromPairs(s.stats.GetOr([]));
        context := s.context.GetOr("");
        avatars := FromPairs(s.avatars.GetOr([]));
        nextSpinPenalty := FromPairs(s.penalties.GetOr([]));
      }
    }

    /** `saveData`: writes the whole state to the storage slot. */
    method SaveData()
      modifies this`storage
      ensures Persisted()
    {
      storage := Parsed(Save(Data()));
    }

    /** The user edits the context field; nothing is saved until the next save. */
    method EditContext(text: string)
      modifies this`context
      ensures context == text
    {
      context := text;
    }

    /**
     `addParticipant`: trims the input and rejects it when it is empty, when
     the roster is full or when the name is already on it, changing nothing.
     Otherwise the name is appended, gets a random animal avatar (drawn with
     `u`) unless it already has one, joins the names ever added, and the state is saved.
     */
    method AddParticipant(input: string, u: real) returns (outcome: AddOutcome)
      requires Valid() && 0.0 <= u < 1.0
      modifies this
      ensures Valid()
      ensures outcome == CheckAdd(Trim(input), old(participants), maxParticipants)
      ensures outcome != Added ==> Data() == old(Data()) && storage == old(storage)
      ensures outcome == Added ==>
        var name := Trim(input);
        && participants == old(participants) + [name]
        && allTimeParticipants == AddToSet(old(allTimeParticipants), name)
        && avatars == AssignAvatar(old(avatars), name, RandomEmoji(u))
        && stats == old(stats) && nextSpinPenalty == old(nextSpinPenalty) && context == old(context)
        && Persisted()
      ensures old(RosterOk()) ==> RosterOk()
    {
      var name := Trim(input);
      if name == [] {
        return EmptyName;
      }
      if |participants| >= maxParticipants {
        return RosterFull;
      }
      if name in participants {
        return DuplicateName;
      }
      if RosterOk() {
        AppendKeepsDistinct(participants, name);
      }
      participants := participants + [name];
      if Lookup(avatars, name).None? {
        avatars := AssignAvatar(avatars, name, RandomEmoji(u));
      }
      allTimeParticipants := AddToSet(allTimeParticipants, name);
      SaveData();
      outcome := Added;
    }

    /**
     `removeParticipant`: drops every occurrence of `name` from the roster,
     keeping the order of the others; statistics, penalties, avatars and the
     names ever added are kept. The state is saved.
     */
    method RemoveParticipant(name: Name)
      requires Valid()
      modifies this
      ensures Valid()
      ensures participants == RemoveAll(old(participants), name)
      ensures name !in participants
      ensures stats == old(stats) && nextSpinPenalty == old(nextSpinPenalty) && avatars == old(avatars)
      ensures allTimeParticipants == old(allTimeParticipants) && context == old(context)
      ensures Persisted()
      ensures old(RosterOk()) ==> RosterOk()
    {
      participants := RemoveAll(participants, name);
      SaveData();
    }

    /**
     `selectWinner`: draws from the weighted pool at `floor(u * |pool|)`,
     adds one win to the winner (from 0 when absent), sets the winner's
     penalty to 0.5, builds the result line and saves. No other statistic or
     penalty changes, and no penalty is removed.
     */
    method SelectWinner(u: real) returns (winner: Name, text: string)
      requires Valid() && |participants| >= 1 && 0.0 <= u < 1.0
      modifies this
      ensures Valid()
      ensures winner in participants
      ensures winner == Pool(participants, old(nextSpinPenalty))[DrawIndex(u, TotalTickets(participants, old(nextSpinPenalty)))]
      ensures stats == RecordWin(old(stats), winner)
      ensures nextSpinPenalty == Penalize(old(nextSpinPenalty), winner)
      ensures participants == old(participants) && allTimeParticipants == old(allTimeParticipants)
      ensures avatars == old(avatars) && context == old(context)
      ensures text == ResultText(winner, context)
      ensures Persisted()
    {
      winner := Draw(participants, nextSpinPenalty, u);
      stats := RecordWin(stats, winner);
      nextSpinPenalty := Penalize(nextSpinPenalty, winner);
      text := ResultText(winner, context);
      SaveData();
    }

    /**
     `spinRoulette` up to its timer: a roster of fewer than two names changes
     nothing; otherwise the spin ends in `selectWinner`.
     */
    method Spin(u: real) returns (winner: Option<Name>)
      requires Valid() && 0.0 <= u < 1.0
      modifies this
      ensures Valid()
      ensures winner.None? <==> |old(participants)| < 2
      ensures winner.None? ==> Data() == old(Data()) && storage == old(storage)
      ensures winner.Some? ==>
        && winner.value in participants && participants == old(participants)
        && winner.value == Pool(old(participants), old(nextSpinPenalty))[DrawIndex(u, TotalTickets(old(participants), old(nextSpinPenalty)))]
        && allTimeParticipants == old(allTimeParticipants) && avatars == old(avatars) && context == old(context)
        && stats == RecordWin(old(stats), winner.value)
        && nextSpinPenalty == Penalize(old(nextSpinPenalty), winner.value)
        && Persisted()
    {
      if |participants| < 2 {
        return None;
      }
      var name, _ := SelectWinner(u);
      winner := Some(name);
    }

    /** `resetStats` once confirmed: every statistic is dropped and the state is saved. */
    method ResetStats(confirmed: bool)
      requires Valid()
      modifies this
      ensures Valid()
      ensures confirmed ==> stats == [] && TotalWins(stats) == 0 && Persisted()
      ensures !confirmed ==> stats == old(stats) && storage == old(storage)
      ensures participants == old(participants) && nextSpinPenalty == old(nextSpinPenalty)
      ensures allTimeParticipants == old(allTimeParticipants) && avatars == old(avatars) && context == old(context)
    {
      if confirmed {
        stats := [];
        SaveData();
      }
    }

    /**
     `resetStats` as the source has it: after clearing the statistics it calls
     `clear` on a field that does not exist, which throws, so the page is not
     refreshed and nothing is saved: the storage slot keeps the old statistics.
     */
    method ResetStatsAsWritten(confirmed: bool) returns (threw: bool)
      requires Valid()
      modifies this`stats
      ensures Valid()
      ensures threw == confirmed
      ensures confirmed ==> stats == [] && storage == old(storage)
      ensures !confirmed ==> stats == old(stats)
    {
      threw := false;
      if confirmed {
        stats := [];
        threw := true;
      }
    }
  }

  /** A fresh page over empty storage: two names are added and one spin is made. */
  method TwoPlayersOneSpin(a: Name, b: Name, u: real) returns (app: RouletteApp)
    requires a != [] && Trim(a) == a && b != [] && Trim(b) == b && a != b
    requires 0.0 <= u < 1.0
    ensures fresh(app) && app.Valid() && app.Persisted()
    ensures |app.participants| == 2 && TotalWins(app.stats) == 1
  {
    app := new RouletteApp(Absent);
    assert app.participants == [] && app.stats == [];
    var first := app.AddParticipant(a, u);
    assert first == Added;
    assert app.participants == [a] && app.stats == [];
    var second := app.AddParticipant(b, u);
    assert second == Added;
    assert |app.participants| == 2 && app.stats == [];
    var winner := app.Spin(u);
    assert winner.Some?;
  }

  /**
   With the source's `resetStats`, the statistics come back after a reload:
   one win was recorded, the reset was confirmed, and the reloaded page
   still counts one win.
   */
  method ReloadAfterResetAsWritten(a: Name, b: Name, u: real) returns (winsAfterReload: nat)
    requires a != [] && Trim(a) == a && b != [] && Trim(b) == b && a != b
    requires 0.0 <= u < 1.0
    ensures winsAfterReload == 1
  {
    var app := TwoPlayersOneSpin(a, b, u);
    var spun := app.Data();
    var threw := app.ResetStatsAsWritten(true);
    LoadSave(Initial, spun);
    var reloaded := new RouletteApp(app.storage);
    winsAfterReload := TotalWins(reloaded.stats);
  }

  /** With the corrected reset, a reloaded page counts no wins. */
  method ReloadAfterReset(a: Name, b: Name, u: real) returns (winsAfterReload: nat)
    requires a != [] && Trim(a) == a && b != [] && Trim(b) == b && a != b
    requires 0.0 <= u < 1.0
    ensures winsAfterReload == 0
  {
    var app := TwoPlayersOneSpin(a, b, u);
    app.ResetStats(true);
    LoadSave(Initial, app.Data());
    var reloaded := new RouletteApp(app.storage);
    winsAfterReload := TotalWins(reloaded.stats);
  }
}
