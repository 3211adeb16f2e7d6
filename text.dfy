/**
 The three JavaScript string operations the roulette applies to names and to
 the search query: `String.prototype.trim`, `toLowerCase` and `includes`.
 */
module Text {

  /**
   The characters `trim` removes: ECMAScript's WhiteSpace (tab, vertical tab,
   form feed, the byte order mark and every space separator of Unicode
   category Zs) and LineTerminator (line feed, carriage return, line and
   paragraph separator).
   */
  predicate IsTrimmable(c: char) {
    || c == '\t' || c == '\n' || c == '\U{B}' || c == '\U{C}' || c == '\r'
    || c == ' ' || c == '\U{A0}' || c == '\U{1680}'
    || ('\U{2000}' <= c <= '\U{200A}')
    || c == '\U{2028}' || c == '\U{2029}' || c == '\U{202F}' || c == '\U{205F}'
    || c == '\U{3000}' || c == '\U{FEFF}'
  }

  /** `trimStart`: drops the leading trimmable characters. */
  function TrimStart(s: string): string {
    if s != [] && IsTrimmable(s[0]) then TrimStart(s[1..]) else s
  }

  /** What `trimStart` drops is trimmable, and what it keeps is a suffix that does not start with a trimmable character. */
  lemma {:induction false} TrimStartSpec(s: string)
    ensures var r := TrimStart(s);
      && |r| <= |s| && r == s[|s| - |r|..]
      && (forall i :: 0 <= i < |s| - |r| ==> IsTrimmable(s[i]))
      && (r == [] || !IsTrimmable(r[0]))
  {
    if s != [] && IsTrimmable(s[0]) {
      TrimStartSpec(s[1..]);
      var r := TrimStart(s);
      forall i | 1 <= i < |s| - |r| ensures IsTrimmable(s[i]) {
        assert s[i] == s[1..][i - 1];
      }
    }
  }

  /** `trimEnd`: drops the trailing trimmable characters. */
  function TrimEnd(s: string): string {
    if s != [] && IsTrimmable(s[|s| - 1]) then TrimEnd(s[..|s| - 1]) else s
  }

  /** What `trimEnd` drops is trimmable, and what it keeps is a prefix that does not end with a trimmable character. */
  lemma {:induction false} TrimEndSpec(s: string)
    ensures var r := TrimEnd(s);
      && |r| <= |s| && r == s[..|r|]
      && (forall i :: |r| <= i < |s| ==> IsTrimmable(s[i]))
      && (r == [] || !IsTrimmable(r[|r| - 1]))
  {
    if s != [] && IsTrimmable(s[|s| - 1]) {
      var init := s[..|s| - 1];
      TrimEndSpec(init);
      var r := TrimEnd(s);
      assert r == init[..|r|];
      forall i | |r| <= i < |s| - 1 ensures IsTrimmable(s[i]) {
        assert s[i] == init[i];
      }
    }
  }

  /**
   `r` is the part of `s` that starts at `lead`, and everything of `s` before
   and after it is trimmable.
   */
  predicate TrimmedAt(s: string, r: string, lead: int) {
    && 0 <= lead && lead + |r| <= |s| && s[lead..lead + |r|] == r
    && (forall i :: 0 <= i < lead ==> IsTrimmable(s[i]))
    && (forall i :: lead + |r| <= i < |s| ==> IsTrimmable(s[i]))
  }

  /** `trim`: what is left between the leading and the trailing trimmable characters. */
  function Trim(s: string): (r: string)
    ensures |r| <= |s|
    ensures r == [] || (!IsTrimmable(r[0]) && !IsTrimmable(r[|r| - 1]))
  {
    TrimStartSpec(s);
    TrimEndSpec(TrimStart(s));
    TrimEnd(TrimStart(s))
  }

  /** Trimming the start and then the end leaves a middle part with only trimmable characters around it. */
  lemma TrimSplit(s: string)
    ensures TrimmedAt(s, Trim(s), |s| - |TrimStart(s)|)
  {
    var t := TrimStart(s);
    var r := TrimEnd(t);
    var lead := |s| - |t|;
    TrimStartSpec(s);
    TrimEndSpec(t);
    SliceOfSuffix(s, lead, |r|);
    forall i | lead + |r| <= i < |s| ensures IsTrimmable(s[i]) {
      assert s[i] == t[i - lead];
    }
  }

  lemma SliceOfSuffix(s: string, lead: nat, k: nat)
    requires lead + k <= |s|
    ensures s[lead..][..k] == s[lead..lead + k]
  {
  }

  /**
   The trimmed string is empty exactly when the whole string is trimmable,
   neither starts nor ends with a trimmable character, and sits in the string
   with only trimmable characters before and after it.
   */
  lemma TrimSpec(s: string)
    ensures Trim(s) == [] <==> forall i :: 0 <= i < |s| ==> IsTrimmable(s[i])
    ensures Trim(s) != [] ==> !IsTrimmable(Trim(s)[0]) && !IsTrimmable(Trim(s)[|Trim(s)| - 1])
    ensures exists lead :: TrimmedAt(s, Trim(s), lead)
  {
    var t := TrimStart(s);
    var lead := |s| - |t|;
    TrimStartSpec(s);
    TrimEndSpec(t);
    TrimSplit(s);
    var r := Trim(s);
    if r != [] {
      assert r[0] == t[0];
      assert s[lead] == r[0];
    }
  }

  /** A string that neither starts nor ends with a trimmable character is its own trim. */
  lemma TrimOfTrimmed(s: string)
    requires s == [] || (!IsTrimmable(s[0]) && !IsTrimmable(s[|s| - 1]))
    ensures Trim(s) == s
  {
  }

  /** Trimming twice is trimming once. */
  lemma TrimIdempotent(s: string)
    ensures Trim(Trim(s)) == Trim(s)
  {
    TrimSpec(s);
    TrimOfTrimmed(Trim(s));
  }

  /**
   Lower case of one character, for the scripts a roster realistically holds:
   Basic Latin, Latin-1 and the basic Cyrillic block. Every other character
   is left as it is.
   */
  function LowerChar(c: char): (d: char)
  {
    if 'A' <= c <= 'Z' then (c as int + 0x20) as char
    else if '\U{C0}' <= c <= '\U{DE}' && c != '\U{D7}' then (c as int + 0x20) as char
    else if '\U{410}' <= c <= '\U{42F}' then (c as int + 0x20) as char
    else if '\U{400}' <= c <= '\U{40F}' then (c as int + 0x50) as char
    else c
  }

  /** Lower-casing an already lower-case character changes nothing. */
  lemma LowerCharIdempotent(c: char)
    ensures LowerChar(LowerChar(c)) == LowerChar(c)
  {
  }

  /** `toLowerCase`, character by character. */
  function Lower(s: string): (r: string)
    ensures |r| == |s|
    ensures forall i :: 0 <= i < |s| ==> r[i] == LowerChar(s[i])
  {
    if s == [] then [] else [LowerChar(s[0])] + Lower(s[1..])
  }

  /** Lower-casing twice is lower-casing once. */
  lemma LowerIdempotent(s: string)
    ensures Lower(Lower(s)) == Lower(s)
  {
    forall i | 0 <= i < |s| ensures Lower(Lower(s))[i] == Lower(s)[i] {
      LowerCharIdempotent(s[i]);
    }
  }

  /** `q` occurs in `s` starting at index `i`. */
  predicate OccursAt(s: string, q: string, i: int) {
    0 <= i && i + |q| <= |s| && s[i..i + |q|] == q
  }

  /** `s.includes(q)`: `q` occurs somewhere in `s`. */
  function Contains(s: string, q: string): (r: bool)
    ensures r <==> exists i :: OccursAt(s, q, i)
  {
    if |q| > |s| then false
    else if s[..|q|] == q then (assert OccursAt(s, q, 0); true)
    else
      var r := Contains(s[1..], q);
      assert r ==> exists i :: OccursAt(s, q, i) by {
        if r {
          var i :| OccursAt(s[1..], q, i);
          assert s[i + 1..i + 1 + |q|] == s[1..][i..i + |q|];
          assert OccursAt(s, q, i + 1);
        }
      }
      assert (exists i :: OccursAt(s, q, i)) ==> r by {
        if exists i :: OccursAt(s, q, i) {
          var i :| OccursAt(s, q, i);
          assert i != 0;
          assert s[1..][i - 1..i - 1 + |q|] == s[i..i + |q|];
          assert OccursAt(s[1..], q, i - 1);
        }
      }
      r
  }
}
