/**
 The weighted draw of `selectWinner` (and of the animation in
 `createRoulette`): every participant gets a number of tickets from the
 penalty factor stored for them, the names are pushed into a flat pool in
 roster order, and the winner is the pool entry at `floor(random * length)`.
 The random number is a parameter `u` with `0 <= u < 1`.
 */
module Selection {
  import opened JsCollections

  type Name = string

  /** `nextSpinPenalty`: name -> probability multiplier for the next spin. */
  type Penalties = seq<(Name, real)>

  /** Tickets of a participant with no penalty (factor 1). */
  const DefaultTickets: nat := 10

  /** The factor a winner gets for the next spin. */
  const WinnerPenalty: real := 0.5

  /** `Math.round` on an exact real: the nearest integer, halves rounded up. */
  function Round(x: real): (n: int)
    ensures n as real - 0.5 <= x < n as real + 0.5
  {
    (x + 0.5).Floor
  }

  /** `nextSpinPenalty.get(name) || 1`: a missing entry, and a stored 0 (falsy), count as 1. */
  function Factor(pen: Penalties, name: Name): (f: real)
    ensures f != 0.0
  {
    match Lookup(pen, name)
    case Some(x) => if x != 0.0 then x else 1.0
    case None => 1.0
  }

  /** `Math.max(1, Math.round(10 * factor))`. */
  function Tickets(pen: Penalties, name: Name): (t: nat)
    ensures t >= 1
    ensures Lookup(pen, name) == None ==> t == DefaultTickets
    ensures Lookup(pen, name) == Some(0.0) ==> t == DefaultTickets
    ensures Lookup(pen, name) == Some(WinnerPenalty) ==> t == 5
  {
    var n := Round(DefaultTickets as real * Factor(pen, name));
    if n < 1 then 1 else n
  }

  /** The number of tickets of a whole roster. */
  function TotalTickets(roster: seq<Name>, pen: Penalties): (total: nat)
    ensures total >= |roster|
  {
    if roster == [] then 0
    else TotalTickets(roster[..|roster| - 1], pen) + Tickets(pen, roster[|roster| - 1])
  }

  function Repeat(name: Name, n: nat): (r: seq<Name>)
    ensures |r| == n && forall i :: 0 <= i < n ==> r[i] == name
  {
    seq(n, _ => name)
  }

  /**
   The weighted pool: for each roster name in order, that name repeated as
   many times as it has tickets. Its length is the total number of tickets.
   */
  function Pool(roster: seq<Name>, pen: Penalties): (pool: seq<Name>)
    ensures |pool| == TotalTickets(roster, pen)
  {
    if roster == [] then []
    else
      var last := roster[|roster| - 1];
      Pool(roster[..|roster| - 1], pen) + Repeat(last, Tickets(pen, last))
  }

  /** Every pool entry is a roster name. */
  lemma {:induction false} PoolMembers(roster: seq<Name>, pen: Penalties)
    ensures forall i :: 0 <= i < |Pool(roster, pen)| ==> Pool(roster, pen)[i] in roster
  {
    if roster != [] {
      var init := roster[..|roster| - 1];
      PoolMembers(init, pen);
      assert forall x :: x in init ==> x in roster;
    }
  }

  /** A name appears in the pool its ticket count times for each time it is on the roster. */
  lemma {:induction false} PoolCount(roster: seq<Name>, pen: Penalties, x: Name)
    ensures multiset(Pool(roster, pen))[x] == multiset(roster)[x] * Tickets(pen, x)
  {
    if roster != [] {
      var init := roster[..|roster| - 1];
      var last := roster[|roster| - 1];
      assert roster == init + [last];
      PoolCount(init, pen, x);
      var block := Repeat(last, Tickets(pen, last));
      RepeatMultiset(last, Tickets(pen, last));
      assert Pool(roster, pen) == Pool(init, pen) + block;
      assert multiset(Pool(roster, pen)) == multiset(Pool(init, pen)) + multiset(block);
      assert multiset(roster) == multiset(init) + multiset{last};
      var c, t := multiset(init)[x], Tickets(pen, x);
      if last == x {
        assert multiset(block)[x] == t && multiset(roster)[x] == c + 1;
        MultiplyStep(c, t);
      } else {
        assert multiset(block)[x] == 0 && multiset(roster)[x] == c;
      }
    }
  }

  lemma MultiplyStep(c: nat, t: nat)
    ensures (c + 1) * t == c * t + t
  {
  }

  lemma {:induction false} RepeatMultiset(name: Name, n: nat)
    ensures multiset(Repeat(name, n)) == multiset{} [name := n]
  {
    if n > 0 {
      assert Repeat(name, n) == Repeat(name, n - 1) + [name];
      RepeatMultiset(name, n - 1);
    }
  }

  /** The pool of a roster prefix is a prefix of the pool. */
  lemma {:induction false} PoolPrefix(roster: seq<Name>, pen: Penalties, i: nat)
    requires i <= |roster|
    ensures TotalTickets(roster[..i], pen) <= TotalTickets(roster, pen)
    ensures Pool(roster[..i], pen) == Pool(roster, pen)[..TotalTickets(roster[..i], pen)]
  {
    if i < |roster| {
      var init := roster[..|roster| - 1];
      var last := roster[|roster| - 1];
      assert roster[..i] == init[..i];
      PoolPrefix(init, pen, i);
      var t := TotalTickets(roster[..i], pen);
      assert Pool(roster, pen) == Pool(init, pen) + Repeat(last, Tickets(pen, last));
      assert Pool(roster, pen)[..t] == Pool(init, pen)[..t];
    } else {
      assert roster[..i] == roster;
    }
  }

  /**
   The pool is grouped in roster order: the tickets of `roster[i]` are the
   entries from the total ticket count of the names before it onwards.
   */
  lemma PoolBlock(roster: seq<Name>, pen: Penalties, i: nat, k: nat)
    requires i < |roster| && k < Tickets(pen, roster[i])
    ensures TotalTickets(roster[..i], pen) + k < TotalTickets(roster, pen)
    ensures Pool(roster, pen)[TotalTickets(roster[..i], pen) + k] == roster[i]
  {
    var upTo := roster[..i + 1];
    PoolPrefix(roster, pen, i + 1);
    assert upTo[..i] == roster[..i];
    assert upTo[i] == roster[i];
    var block := Repeat(roster[i], Tickets(pen, roster[i]));
    assert Pool(upTo, pen) == Pool(roster[..i], pen) + block;
    assert Pool(upTo, pen)[TotalTickets(roster[..i], pen) + k] == block[k];
  }

  lemma {:induction false} DistinctOnce(s: seq<Name>, x: Name)
    requires Distinct(s) && x in s
    ensures multiset(s)[x] == 1
  {
    if s[0] == x {
      assert s == [x] + s[1..];
      assert x !in s[1..] by {
        forall j | 1 <= j < |s| ensures s[j] != x {
        }
      }
    } else {
      assert s == [s[0]] + s[1..];
      assert Distinct(s[1..]) by {
        forall i, j | 0 <= i < j < |s[1..]| ensures s[1..][i] != s[1..][j] {
          assert s[1..][i] == s[i + 1] && s[1..][j] == s[j + 1];
        }
      }
      DistinctOnce(s[1..], x);
    }
  }

  /**
   On a roster without duplicates, a participant penalized after a win holds
   5 tickets and an unpenalized one 10: exactly half the chance.
   */
  lemma PenalizedHalfChance(roster: seq<Name>, pen: Penalties, winner: Name, other: Name)
    requires Distinct(roster) && winner in roster && other in roster
    requires Lookup(pen, winner) == Some(WinnerPenalty) && Lookup(pen, other) == None
    ensures multiset(Pool(roster, pen))[winner] == 5
    ensures multiset(Pool(roster, pen))[other] == 10
  {
    PoolCount(roster, pen, winner);
    PoolCount(roster, pen, other);
    DistinctOnce(roster, winner);
    DistinctOnce(roster, other);
  }

  /**
   `Math.floor(u * n)` for `0 <= u < 1`: an index into a pool of `n` entries,
   the one whose interval `[i, i + 1)` holds `u * n`.
   */
  function DrawIndex(u: real, n: nat): (i: nat)
    requires 0.0 <= u < 1.0 && n > 0
    ensures i < n
    ensures i as real <= u * n as real < i as real + 1.0
  {
    assert u * n as real < n as real by {
      assert (1.0 - u) * n as real > 0.0;
    }
    (u * n as real).Floor
  }

  /** Builds the pool the way `selectWinner` does: a push per ticket, name by name. */
  method BuildPool(roster: seq<Name>, pen: Penalties) returns (pool: seq<Name>)
    ensures pool == Pool(roster, pen)
  {
    pool := [];
    for i := 0 to |roster|
      invariant pool == Pool(roster[..i], pen)
    {
      var name := roster[i];
      var tickets := Tickets(pen, name);
      for j := 0 to tickets
        invariant pool == Pool(roster[..i], pen) + Repeat(name, j)
      {
        pool := pool + [name];
      }
      assert roster[..i + 1][..i] == roster[..i];
    }
    assert roster[..|roster|] == roster;
  }

  /**
   One weighted draw: the pool entry at `floor(u * |pool|)`. The winner is
   always a roster name.
   */
  method Draw(roster: seq<Name>, pen: Penalties, u: real) returns (winner: Name)
    requires |roster| >= 1 && 0.0 <= u < 1.0
    ensures winner in roster
    ensures winner == Pool(roster, pen)[DrawIndex(u, TotalTickets(roster, pen))]
  {
    var pool := BuildPool(roster, pen);
    var index := DrawIndex(u, |pool|);
    winner := pool[index];
    PoolMembers(roster, pen);
  }

  /**
   The draw picks `roster[i]` whenever the scaled random number
   `v = u * |pool|` falls in the block of `roster[i]`'s tickets, an interval
   as long as its ticket count: each name's chance is its tickets over the
   total.
   */
  lemma DrawLandsInBlock(roster: seq<Name>, pen: Penalties, v: real, i: nat)
    requires i < |roster|
    requires TotalTickets(roster[..i], pen) as real <= v
    requires v < (TotalTickets(roster[..i], pen) + Tickets(pen, roster[i])) as real
    ensures 0 <= v.Floor < |Pool(roster, pen)| && Pool(roster, pen)[v.Floor] == roster[i]
  {
    var start := TotalTickets(roster[..i], pen);
    FloorBetween(v, start, start + Tickets(pen, roster[i]));
    PoolBlock(roster, pen, i, v.Floor - start);
  }

  lemma FloorBetween(v: real, lo: int, hi: int)
    requires lo as real <= v < hi as real
    ensures lo <= v.Floor < hi
  {
  }
}
