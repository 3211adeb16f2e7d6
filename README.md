# Random roulette, modelled in Dafny

The random roulette is a single-page app. It keeps a roster of participants
and picks a winner by a weighted draw. Each winner's probability factor is
set to 0.5, which halves their tickets and shows the "totem" on their card.
The source's comments describe this as a penalty for the next spin only, but
nothing ever lifts it: a past winner keeps the halved chance and the totem in
every later spin, until they win again (which sets the same 0.5). The model
follows the code (`Views.PenaltyStays`). The app keeps win
statistics, a random animal avatar per name, and every name ever added, which
it uses for autocomplete suggestions. All of this is saved to the browser's
storage and loaded back when the page opens.

The model covers the `RouletteApp` class of `script.js`. It is split into six
modules:

- `JsCollections` (`collections.dfy`): the JavaScript `Map` and `Set` the app
  keeps its state in.
  - A `Map` is an insertion-ordered association list with distinct keys.
  - A `Set` is an insertion-ordered list with distinct elements.
  - `map.get`, `map.set`, `new Map(pairs)`, `set.add`, `new Set(array)` and
    `array.filter` are functions over these lists.
- `Text` (`text.dfy`): `trim`, `toLowerCase` and `includes` on names.
- `Selection` (`selection.dfy`): ticket counts, the weighted pool and the
  draw.
  - The pool is built by a loop that pushes one ticket at a time, exactly as
    `selectWinner` does.
- `Views` (`views.dfy`): the values the page derives from the state:
  - the result line;
  - the autocomplete suggestions;
  - the statistics table order;
  - the totem flag;
  - the updates of a win to `stats` and `nextSpinPenalty`.
- `Persistence` (`persistence.dfy`): the snapshot `saveData` writes and
  `loadData` reads back.
- `Roulette` (`roulette.dfy`): the `RouletteApp` class.
  - Its fields are the roster, the statistics, the next-spin penalties, the
    avatars, the names ever added, the context text and the storage slot.
  - Its methods are the page's operations, which change those fields in
    place.

Randomness and the page's inputs are parameters:

- `Math.random()` is a real `u` with `0 <= u < 1`.
- What the user typed into the name or context field is a string.
- `confirm` is a boolean.
- The storage slot is a field holding one of three things: nothing, text that
  does not parse, or a parsed snapshot.

## Model

| member | source | states |
|---|---|---|
| JsCollections.Lookup | script.js:128 | `map.get(k)` finds a value exactly when `k` is one of the map's keys |
| JsCollections.Put | script.js:73 | `map.set(k, v)` keeps the length when `k` is a key and adds exactly one entry otherwise; its values are stated by `PutLookup` and its key order by `PutKeys` |
| JsCollections.PutLookup | script.js:250-253 | after `map.set(k, v)`, `k` maps to `v` and every other key keeps its value (or its absence) |
| JsCollections.PutKeys | script.js:72-74 | `map.set` of a new key appends the entry at the end; `set` of an existing key keeps the key order |
| JsCollections.PutKeepsKeysDistinct | script.js:250-253 | `map.set` never creates a second entry for a key |
| JsCollections.FromPairs | script.js:331 | `new Map(pairs)` has distinct keys, and the key of the final pair holds that pair's value; the value of every key is stated by `FromPairsLookup` |
| JsCollections.FromPairsLookup | script.js:331 | in `new Map(pairs)`, every key holds the value of the last pair with that key, and a key with no pair is absent |
| JsCollections.FromPairsKeys | script.js:331 | `new Map(pairs)` has exactly the keys that occur in the pairs |
| JsCollections.FromPairsOfEntries | script.js:316 | `new Map(Array.from(m.entries()))` is `m` again, entries in the same order |
| JsCollections.AddToSet | script.js:75 | after `set.add(x)`, `x` is in the set, nothing else was added, and elements stay distinct |
| JsCollections.FromArray | script.js:330 | `new Set(array)` has distinct elements and exactly the array's members |
| JsCollections.FromArrayOfElements | script.js:315 | `new Set(Array.from(s))` is `s` again, in the same order |
| JsCollections.RemoveAll | script.js:83 | `filter(p => p !== x)` leaves no `x`, keeps every other element as often as before, never grows, and keeps a list duplicate-free |
| JsCollections.RemoveAllAppend | script.js:83 | the filter keeps the relative order of the kept elements (it distributes over concatenation) |
| JsCollections.SumValuesPut | script.js:126 | overwriting one entry changes the sum of all counts by exactly that entry's difference |
| Text.Trim | script.js:53 | `trim` never lengthens and leaves no whitespace at either end; the full characterisation is `TrimSpec` |
| Text.TrimStartSpec | script.js:53 | the leading part dropped by trimming is whitespace, and what remains does not start with whitespace |
| Text.TrimEndSpec | script.js:53 | the trailing part dropped by trimming is whitespace, and what remains does not end with whitespace |
| Text.TrimSplit | script.js:53 | the trimmed name is a slice of the input with only whitespace before and after it |
| Text.TrimSpec | script.js:53-55 | the trimmed name is empty exactly when the input is all whitespace; otherwise it neither starts nor ends with whitespace |
| Text.TrimOfTrimmed | script.js:53 | a string with no whitespace at either end is its own trim |
| Text.TrimIdempotent | script.js:53 | trimming twice is trimming once |
| Text.Lower | script.js:89 | `toLowerCase` keeps the length and lower-cases character by character |
| Text.LowerIdempotent | script.js:89 | lower-casing twice is lower-casing once |
| Text.Contains | script.js:97 | `includes(q)` holds exactly when `q` occurs at some position |
| Selection.Round | script.js:243 | `Math.round(x)` is the integer within one half of `x` (halves round up) |
| Selection.Factor | script.js:242 | `get(name) \|\| 1` is never 0: a missing factor and a stored 0 both count as 1 |
| Selection.Tickets | script.js:242-243 | every name gets at least 1 ticket; no penalty (or a falsy 0) gives 10; the winner's 0.5 gives 5 |
| Selection.TotalTickets | script.js:241-245 | the pool holds at least one ticket per roster name |
| Selection.Pool | script.js:240-245 | the pool's length is the sum of the ticket counts |
| Selection.PoolMembers | script.js:240-245 | every pool entry is a roster name |
| Selection.PoolCount | script.js:240-245 | a name appears in the pool its ticket count times for every time it is on the roster |
| Selection.PoolPrefix | script.js:241-245 | the pool of the first `i` names is a prefix of the pool: names are grouped in roster order |
| Selection.PoolBlock | script.js:241-245 | the tickets of `roster[i]` are the entries that follow the tickets of the names before it |
| Selection.PenalizedHalfChance | script.js:241-244 | on a duplicate-free roster, the last winner (penalty 0.5) holds 5 pool entries and an unpenalized name 10 |
| Selection.DrawIndex | script.js:246 | `Math.floor(u * n)` is an index into a pool of `n` entries, the one whose unit interval holds `u * n` |
| Selection.BuildPool | script.js:240-245 | the push loop builds exactly the pool |
| Selection.Draw | script.js:240-247 | the drawn winner is a roster name, namely the pool entry at `floor(u * \|pool\|)` |
| Selection.DrawLandsInBlock | script.js:246-247 | a name wins whenever `u * \|pool\|` falls in the interval of its tickets, so its chance is its tickets over the total |
| Views.ResultText | script.js:266-267 | the result line starts with the winner; its full shape is `ResultTextParts` |
| Views.ResultTextParts | script.js:266-267 | the result line is the winner alone when the trimmed context is empty, else the winner, `", "` and the trimmed context |
| Views.ResultTextIgnoresPadding | script.js:266 | whitespace around the context never reaches the result line |
| Views.Matching | script.js:96-97 | a name passes the filter exactly when it is among the names ever added, its lower case contains the query, and it is not on the roster |
| Views.MatchingAppend | script.js:96-97 | the filter keeps the order in which the names were first added |
| Views.Suggestions | script.js:89-98 | a blank query gives no suggestions; otherwise at most 5, the first ones the filter keeps, in order |
| Views.SuggestionsMatch | script.js:89-98 | every suggestion is among the names ever added, is off the roster, and contains the lower-cased trimmed query |
| Views.WinsOf | script.js:128 | `stats.get(name) \|\| 0`: the stored count for a known name, 0 for an unknown one |
| Views.RecordWin | script.js:250 | the winner's count grows by 1 (from 0 when absent), no other count changes, and total wins grow by exactly 1 |
| Views.InsertByWins | script.js:175 | inserting one entry adds exactly that entry |
| Views.InsertKeepsSorted | script.js:175 | inserting into a table sorted by descending wins keeps it sorted |
| Views.SortByWins | script.js:174-175 | the statistics table holds the same entries, sorted by descending wins |
| Views.SortByWinsStable | script.js:175 | entries with equal wins keep their map order, as the stable `Array.prototype.sort` does |
| Views.Penalize | script.js:253 | the winner's factor becomes 0.5, so it holds 5 tickets and shows the totem; no other factor is added, removed or changed |
| Views.HasTotem | script.js:131 | the totem shows when a factor below 1 is stored; whoever shows it holds at most the default 10 tickets |
| Views.PenaltyStays | script.js:253 | a penalty is never lifted: after someone else wins, an earlier winner still holds 5 tickets and shows the totem |
| Views.ReducedTicketsShowTotem | script.js:131 | whoever holds fewer than 10 tickets has a stored factor below 1, so their card shows the totem |
| Persistence.Save | script.js:312-320 | `saveData` writes every field, so none of them loads as missing; `LoadSave` states that loading it restores the state |
| Persistence.Load | script.js:324-338 | an empty or unparsable slot leaves the state as it was; otherwise a missing field loads as empty, the roster as stored, and the maps and set rebuilt duplicate-free |
| Persistence.LoadSave | script.js:312-338 | loading what `saveData` wrote restores the whole state: roster, names ever added, statistics, context, avatars and penalties |
| Persistence.SaveLoadSave | script.js:312-338 | saving right after such a load writes the same snapshot again |
| Roulette.CheckAdd | script.js:52-68 | the add checks run in order: an empty name is rejected first, then a full roster, then a duplicate |
| Roulette.RandomEmoji | script.js:341-344 | a new avatar is always one of the 19 animals |
| Roulette.AvatarOf | script.js:130 | a card's avatar is never empty: the stored emoji, or the fallback when none is stored |
| Roulette.AssignAvatar | script.js:72-74 | a name without an avatar gets the drawn one appended; a name with an avatar keeps it; no other name's avatar changes |
| Roulette.RouletteApp.constructor | script.js:2-17 | a new app starts empty with a limit of 30, then loads from storage |
| Roulette.RouletteApp.LoadData | script.js:324-338 | the fields become what `Load` computes from the slot; the maps and the set stay duplicate-free |
| Roulette.RouletteApp.SaveData | script.js:312-322 | the slot then holds the snapshot of the current state |
| Roulette.RouletteApp.EditContext | script.js:317 | typing into the context field replaces the text that the next save stores |
| Roulette.RouletteApp.AddParticipant | script.js:52-80 | a rejected name changes nothing; an accepted one is appended, joins the names ever added, gets an avatar only if it had none, and is saved; a duplicate-free roster within the limit stays so |
| Roulette.RouletteApp.RemoveParticipant | script.js:82-86 | every occurrence of the name leaves the roster, the rest keep their order, nothing else changes, and the state is saved |
| Roulette.RouletteApp.SelectWinner | script.js:238-263 | the winner is the pool entry drawn with `u`; its wins grow by 1 and its factor becomes 0.5; nothing else changes; the result line is built; the state is saved |
| Roulette.RouletteApp.Spin | script.js:192-206 | fewer than 2 participants: nothing happens; otherwise the winner is the pool entry drawn with `u`, its win is recorded and its factor set to 0.5, no other field changes, and the state is saved |
| Roulette.RouletteApp.ResetStats | script.js:303-310 | once confirmed, the statistics are empty and that is saved; unconfirmed, nothing changes; no other field changes |
| Roulette.RouletteApp.ResetStatsAsWritten | script.js:303-310 | once confirmed, the statistics are cleared in memory but the call throws before the save, so the slot keeps the old statistics |
| Roulette.ReloadAfterResetAsWritten | script.js:303-310 | with the reset as written, a page reloaded after a spin and a confirmed reset still counts 1 win |
| Roulette.ReloadAfterReset | script.js:303-310 | with the corrected reset, the reloaded page counts no wins |

`Roulette.TwoPlayersOneSpin` is the shared setup of the two reload
scenarios: a fresh page over empty storage, two names added, one spin.

## Left out

- Rendering: the participant cards, the carousel, the statistics table HTML,
  the suggestion list markup and its click handlers, the confetti and the
  enabling and disabling of buttons. These are presentation only.
- `alert` and `confirm`: the add checks return an `AddOutcome` instead of
  raising an alert, and `confirm` is a boolean parameter of the reset.
- Timing: the `setTimeout` between the spin and `selectWinner`, and the
  animation. `Spin` runs `selectWinner` at once.
- `Roulette.RouletteApp.SelectWinner`: requires at least one participant.
  The roster can only become empty during the animation delay, which is not
  modelled.
- The independent draw of `createRoulette` (script.js:217-223), which only
  positions the carousel. It uses its own random number, so the animation
  need not stop on the recorded winner.
- Win percentages and `toFixed` (script.js:129, script.js:177). Penalty
  factors are exact reals, and `Math.round` is rounding half up on reals.
  IEEE-754 rounding is not modelled.
- JSON text, `localStorage` I/O and the `console.error` of a failed parse:
  - The slot holds a snapshot record or `Unparsable`.
  - A field whose stored value is falsy loads as missing.
  - A stored value of the wrong type, which makes `new Map` or `new Set`
    throw part-way through `loadData` and leaves the earlier fields
    assigned, is not modelled.
- `Text.Lower`: does not model all of Unicode's `toLowerCase`. Only Basic
  Latin, Latin-1 and the basic Cyrillic block are lower-cased; any other
  character is left as it is.
- `Roulette.RouletteApp.LoadData`: does not re-check the loaded roster for
  duplicates or the limit, because `loadData` does not either. That is why
  the roster invariant is stated as preserved by `AddParticipant` and
  `RemoveParticipant`, not as an invariant of the class.

## Findings

| source | as written | input that shows it | evidently intended | confidence | as-written member | corrected member |
|---|---|---|---|---|---|---|
| script.js:306 | `resetStats` calls `clear()` on `this.winnerWeights`, which is never assigned. The call throws after `stats.clear()`, so `updateStats` and `saveData` are never reached. | Add two names, spin once, confirm the reset, reload the page: the reloaded page still counts 1 win | The cleared statistics are saved, so the reloaded page counts none | high; not executed | Roulette.ReloadAfterResetAsWritten | Roulette.ReloadAfterReset |
