/**
 The values the roulette computes for its page from the state: the result
 line, the autocomplete suggestions, the statistics table order, the totem
 flag of a card and the win counts.
 */
module Views {
  import opened JsCollections
  import opened Text
  import opened Selection

  /** `stats`: name -> number of wins. */
  type Stats = seq<(Name, nat)>

  /** The suggestion list never shows more than this many names. */
  const MaxSuggestions: nat := 5

  // ---------------------------------------------------------------- result line

  /**
   `showResult`: the winner alone when the trimmed context is empty,
   otherwise the winner, a comma and a space, and the trimmed context.
   */
  function ResultText(winner: Name, contextInput: string): (text: string)
    ensures |text| >= |winner| && text[..|winner|] == winner
  {
    var context := Trim(contextInput);
    if context != [] then winner + ", " + context else winner
  }

  /**
   The result line starts with the winner; it is the winner alone exactly
   when the trimmed context is empty, and otherwise continues with a comma, a
   space and the trimmed context.
   */
  lemma ResultTextParts(winner: Name, contextInput: string)
    ensures var text := ResultText(winner, contextInput);
      && |text| >= |winner| && text[..|winner|] == winner
      && (|text| == |winner| <==> Trim(contextInput) == [])
      && (|text| > |winner| ==> text[|winner|..] == ", " + Trim(contextInput))
  {
    var text := ResultText(winner, contextInput);
    assert text[..|winner|] == winner;
    if Trim(contextInput) != [] {
      assert text[|winner|..] == ", " + Trim(contextInput);
    }
  }

  /** Whitespace around the context never reaches the result line. */
  lemma ResultTextIgnoresPadding(winner: Name, contextInput: string)
    ensures ResultText(winner, Trim(contextInput)) == ResultText(winner, contextInput)
  {
    TrimIdempotent(contextInput);
  }

  // ---------------------------------------------------------------- suggestions

  /** The known names whose lower case contains `query` and that are not on the roster, in order. */
  function Matching(names: seq<Name>, roster: seq<Name>, query: string): (r: seq<Name>)
    ensures |r| <= |names|
    ensures forall x :: x in r <==> x in names && Contains(Lower(x), query) && x !in roster
  {
    if names == [] then []
    else
      var keep := Contains(Lower(names[0]), query) && names[0] !in roster;
      (if keep then [names[0]] else []) + Matching(names[1..], roster, query)
  }

  /** Filtering keeps the order of the known names: it distributes over concatenation. */
  lemma {:induction false} MatchingAppend(a: seq<Name>, b: seq<Name>, roster: seq<Name>, query: string)
    ensures Matching(a + b, roster, query) == Matching(a, roster, query) + Matching(b, roster, query)
  {
    if a == [] {
      assert a + b == b;
    } else {
      assert (a + b)[0] == a[0];
      assert (a + b)[1..] == a[1..] + b;
      MatchingAppend(a[1..], b, roster, query);
    }
  }

  /**
   `showSuggestions`: nothing for a blank query; otherwise the first five
   known names (in the order they were first added) whose lower case contains
   the lower-cased trimmed query and that are not on the roster.
   */
  function Suggestions(allTime: seq<Name>, roster: seq<Name>, input: string): (r: seq<Name>)
    ensures Trim(input) == [] ==> r == []
    ensures |r| <= MaxSuggestions
    ensures Trim(input) != [] ==> |r| <= |Matching(allTime, roster, Lower(Trim(input)))|
    ensures Trim(input) != [] ==> r == Matching(allTime, roster, Lower(Trim(input)))[..|r|]
    ensures Trim(input) != [] && |r| < MaxSuggestions ==> r == Matching(allTime, roster, Lower(Trim(input)))
  {
    var query := Lower(Trim(input));
    if |query| < 1 then []
    else
      var all := Matching(allTime, roster, query);
      if |all| <= MaxSuggestions then all else all[..MaxSuggestions]
  }

  /**
   Every suggestion is a known name, off the roster, whose lower case contains
   the lower-cased trimmed query.
   */
  lemma SuggestionsMatch(allTime: seq<Name>, roster: seq<Name>, input: string, x: Name)
    requires x in Suggestions(allTime, roster, input)
    ensures x in allTime && x !in roster
    ensures Trim(input) != [] && Contains(Lower(x), Lower(Trim(input)))
  {
    var all := Matching(allTime, roster, Lower(Trim(input)));
    var r := Suggestions(allTime, roster, input);
    var k :| 0 <= k < |r| && r[k] == x;
    assert x == all[k];
  }

  // ---------------------------------------------------------------- statistics table

  /** The number of wins recorded for `name`: `stats.get(name) || 0`. */
  function WinsOf(stats: Stats, name: Name): (w: nat)
    ensures name !in Keys(stats) ==> w == 0
    ensures name in Keys(stats) ==> Lookup(stats, name) == Some(w)
  {
    Lookup(stats, name).GetOr(0)
  }

  /** The sum of all recorded wins. */
  function TotalWins(stats: Stats): nat {
    SumValues(stats)
  }

  /**
   One more win for `winner`, counted from 0 when it has none: the winner's
   entry keeps its position (or is appended), no other entry changes, and the
   total grows by one.
   */
  function RecordWin(stats: Stats, winner: Name): (r: Stats)
    ensures WinsOf(r, winner) == WinsOf(stats, winner) + 1
    ensures forall n :: n != winner ==> Lookup(r, n) == Lookup(stats, n)
    ensures TotalWins(r) == TotalWins(stats) + 1
    ensures DistinctKeys(stats) ==> DistinctKeys(r)
  {
    var next: nat := WinsOf(stats, winner) + 1;
    var r: Stats := Put(stats, winner, next);
    assert forall n :: Lookup(r, n) == if n == winner then Some(next) else Lookup(stats, n) by {
      forall n ensures Lookup(r, n) == if n == winner then Some(next) else Lookup(stats, n) {
        PutLookup<Name, nat>(stats, winner, next, n);
      }
    }
    SumValuesPut(stats, winner, next);
    assert DistinctKeys(stats) ==> DistinctKeys(r) by {
      if DistinctKeys(stats) {
        PutKeepsKeysDistinct(stats, winner, next);
      }
    }
    r
  }

  predicate SortedByWins(s: Stats) {
    forall i, j :: 0 <= i < j < |s| ==> s[i].1 >= s[j].1
  }

  /** The entries with exactly `w` wins, in order. */
  function WithWins(s: Stats, w: nat): Stats {
    if s == [] then []
    else (if s[0].1 == w then [s[0]] else []) + WithWins(s[1..], w)
  }

  /** Puts `e` before the first entry that does not have more wins. */
  function InsertByWins(e: (Name, nat), s: Stats): (r: Stats)
    ensures multiset(r) == multiset(s) + multiset{e}
    ensures |r| == |s| + 1 && (r[0] == e || (s != [] && r[0] == s[0]))
  {
    if s == [] || s[0].1 <= e.1 then [e] + s
    else
      assert s == [s[0]] + s[1..];
      [s[0]] + InsertByWins(e, s[1..])
  }

  /** Inserting into a table sorted by descending wins keeps it sorted. */
  lemma {:induction false} InsertKeepsSorted(e: (Name, nat), s: Stats)
    requires SortedByWins(s)
    ensures SortedByWins(InsertByWins(e, s))
  {
    if s != [] && s[0].1 > e.1 {
      var rest := InsertByWins(e, s[1..]);
      assert SortedByWins(s[1..]) by {
        forall i, j | 0 <= i < j < |s[1..]| ensures s[1..][i].1 >= s[1..][j].1 {
          assert s[1..][i] == s[i + 1] && s[1..][j] == s[j + 1];
        }
      }
      InsertKeepsSorted(e, s[1..]);
      assert rest[0].1 <= s[0].1 by {
        if rest[0] != e {
          assert rest[0] == s[1];
        }
      }
      var r := [s[0]] + rest;
      forall i, j | 0 <= i < j < |r| ensures r[i].1 >= r[j].1 {
        if i == 0 && j > 1 {
          assert rest[0].1 >= rest[j - 1].1;
        }
      }
    }
  }

  /**
   `Array.from(stats.entries()).sort((a, b) => b[1] - a[1])`: the same entries
   ordered by descending number of wins.
   */
  function SortByWins(es: Stats): (r: Stats)
    ensures multiset(r) == multiset(es)
    ensures SortedByWins(r)
  {
    if es == [] then []
    else
      assert es == [es[0]] + es[1..];
      InsertKeepsSorted(es[0], SortByWins(es[1..]));
      InsertByWins(es[0], SortByWins(es[1..]))
  }

  lemma WithWinsCons(x: (Name, nat), t: Stats, w: nat)
    ensures WithWins([x] + t, w) == (if x.1 == w then [x] else []) + WithWins(t, w)
  {
    assert ([x] + t)[0] == x && ([x] + t)[1..] == t;
  }

  lemma {:induction false} InsertKeepsTies(e: (Name, nat), s: Stats, w: nat)
    ensures WithWins(InsertByWins(e, s), w) == (if e.1 == w then [e] else []) + WithWins(s, w)
  {
    if s == [] || s[0].1 <= e.1 {
      WithWinsCons(e, s, w);
    } else {
      var rest := InsertByWins(e, s[1..]);
      InsertKeepsTies(e, s[1..], w);
      WithWinsCons(s[0], rest, w);
      WithWinsCons(s[0], s[1..], w);
      assert s == [s[0]] + s[1..];
    }
  }

  /**
   The sort is stable, as JavaScript's `Array.prototype.sort` is: entries with
   the same number of wins keep their map order.
   */
  lemma {:induction false} SortByWinsStable(es: Stats, w: nat)
    ensures WithWins(SortByWins(es), w) == WithWins(es, w)
  {
    if es != [] {
      SortByWinsStable(es[1..], w);
      InsertKeepsTies(es[0], SortByWins(es[1..]), w);
    }
  }

  // ---------------------------------------------------------------- totem

  /** The card shows the totem when a penalty below 1 is stored for the name. */
  predicate HasTotem(pen: Penalties, name: Name)
    ensures HasTotem(pen, name) ==> Tickets(pen, name) <= DefaultTickets
  {
    Lookup(pen, name).Some? && Lookup(pen, name).value < 1.0
  }

  /**
   The winner's factor for the next spin becomes 0.5, which halves its
   tickets and shows its totem; no other participant's factor changes.
   */
  function Penalize(pen: Penalties, winner: Name): (r: Penalties)
    ensures Lookup(r, winner) == Some(WinnerPenalty)
    ensures Tickets(r, winner) == DefaultTickets / 2 && HasTotem(r, winner)
    ensures forall n :: n != winner ==> Lookup(r, n) == Lookup(pen, n)
    ensures DistinctKeys(pen) ==> DistinctKeys(r)
  {
    var r: Penalties := Put(pen, winner, WinnerPenalty);
    assert forall n :: Lookup(r, n) == if n == winner then Some(WinnerPenalty) else Lookup(pen, n) by {
      forall n ensures Lookup(r, n) == if n == winner then Some(WinnerPenalty) else Lookup(pen, n) {
        PutLookup(pen, winner, WinnerPenalty, n);
      }
    }
    assert DistinctKeys(pen) ==> DistinctKeys(r) by {
      if DistinctKeys(pen) {
        PutKeepsKeysDistinct(pen, winner, WinnerPenalty);
      }
    }
    r
  }

  /**
   A penalty is never lifted: a participant who won once still holds 5
   tickets and shows the totem after someone else wins the next spin.
   */
  lemma PenaltyStays(pen: Penalties, earlier: Name, later: Name)
    requires earlier != later
    ensures var after := Penalize(Penalize(pen, earlier), later);
      Tickets(after, earlier) == 5 && HasTotem(after, earlier)
  {
    var once := Penalize(pen, earlier);
    assert Lookup(Penalize(once, later), earlier) == Lookup(once, earlier);
  }

  /** Whoever holds fewer than the default number of tickets shows the totem. */
  lemma ReducedTicketsShowTotem(pen: Penalties, name: Name)
    requires Tickets(pen, name) < DefaultTickets
    ensures HasTotem(pen, name)
  {
    var f := Factor(pen, name);
    var n := Round(DefaultTickets as real * f);
    assert n < DefaultTickets;
    assert f < 1.0;
  }
}
