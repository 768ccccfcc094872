# Treasure hunt: progress store and game utilities, modelled in Dafny

This project models the two pure-logic parts of a small browser treasure-hunt game.

- **The progress and ranking store** (`useGameStore`) is modelled as a state machine. The state is the record `{player, gameState, rankings}` together with the browser storage the store writes to. That storage has one progress snapshot per player id and one global leaderboard slot. Each store action is a pure transition function from one `Store` to the next. The getters are functions of the state.
- **The deterministic game utilities** are `formatTime`, `getExpForLevel`, `randomInt`, `calculateDamage` and `generatePuzzle`. Each read of `Math.random()` becomes an explicit `Draw` parameter: an exact rational `num/den` in `[0, 1)`.

Modules, one per component:

| file | module | models |
|---|---|---|
| `wrappers.dfy` | `Wrappers` | `Option`, standing for `null` / `undefined` |
| `decimal.dfy` | `Decimal` | `Number.prototype.toString` on naturals, `padStart`, reading digits back |
| `game_logic.dfy` | `GameLogic` | `src/utils/gameLogic.js` |
| `ranking.dfy` | `Ranking` | leaderboard entries, the comparator, `findIndex`, the upsert and the (stable) sort of `updateRankings` |
| `game_store.dfy` | `GameStore` | `src/store/gameStore.js`: state, getters, every action |
| `session.dfy` | `Session` | sequences of actions: the invariant they keep, save/load round trips, repeated calls |

The model follows the code, including these behaviours that are easy to get wrong:

- `isLoggedIn` is `!!player.id`, so an empty-string id also counts as logged out.
- Only save and load check the login. `addFragment`, `completeLocation`, `takeDamage` and `updateRankings` change the in-memory state even when nobody is logged in. `updateRankings` then writes an entry whose id is the logged-out id (`null` or `''`).
- `loadRankings` with nothing stored keeps the current in-memory list. The list is not reset to empty.
- `takeDamage` has no upper clamp: a negative amount raises hp, and above 3 whenever hp − amount > 3. A zero or negative amount still saves.
- `checkLevelUp` grants at most one level per call.
- A corrupt stored record is not caught. The model has no corrupt records: see "Left out".

The JavaScript sort is stable (ECMAScript 2019 and later). The sort is therefore modelled as a stable insertion sort. `Ranking.StableSortIsUnique` shows that this arrangement is the only sorted one that keeps the relative order of entries with equal keys. So the model has exactly the order the real sort produces.

## Model

| member | source | states |
|---|---|---|
| `Decimal.NatToString` | src/utils/gameLogic.js:17 | `n.toString()` is all digits, reads back as `n`, has no leading zero, and is one digit exactly when `n < 10` |
| `Decimal.PadStart` | src/utils/gameLogic.js:17 | `padStart` puts fill characters in front up to the width, keeps the original as a suffix, and never cuts a longer string |
| `Decimal.ZeroPadValue` | src/utils/gameLogic.js:17 | padding with `'0'` keeps the digits' value |
| `GameLogic.ScaledDraw` | src/utils/gameLogic.js:4 | `Math.floor(Math.random() * n)` lies in `[0, n)` for positive `n` and in `[n, 0]` otherwise |
| `GameLogic.RandomInt` | src/utils/gameLogic.js:3-5 | `randomInt(min, max)` lies in `[min, max]` when `min <= max`; with swapped bounds it lies in `[max + 1, min]` |
| `GameLogic.RandomIntCoversRange` | src/utils/gameLogic.js:3-5 | every value of `[min, max]` is produced by some draw |
| `GameLogic.SplitSeconds` | src/utils/gameLogic.js:14-16 | minutes and seconds are below 60, and hours·3600 + minutes·60 + seconds gives back the input |
| `GameLogic.SplitSecondsUnique` | src/utils/gameLogic.js:14-16 | this is the only such split, so hours is exactly `seconds div 3600` and never wraps at 24 |
| `GameLogic.PadTwo` | src/utils/gameLogic.js:17 | a printed field is at least two digits, exactly two below 100, and reads back as its number |
| `GameLogic.FormatTime` | src/utils/gameLogic.js:13-18 | the output is `H…H:MM:SS`; the hours field reads as `seconds div 3600` and keeps all its digits; minutes and seconds read as the remainders |
| `GameLogic.FormatTimeRoundTrip` | src/utils/gameLogic.js:13-18 | parsing the formatted string gives back the split fields, which add up to the input |
| `GameLogic.GetExpForLevel` | src/utils/gameLogic.js:21-23 | the experience a level needs is a whole multiple of 100, exactly `level` hundreds |
| `GameLogic.CalculateDamage` | src/utils/gameLogic.js:32-50 | the damage is 1 or 2; `'special'` gives 2; an attack gives 2 exactly when the crit draw fires; any other action gives 1 |
| `GameLogic.DamageIgnoresCombatants` | src/utils/gameLogic.js:32 | the attacker and defender do not affect the damage |
| `GameLogic.CritDraws` | src/utils/gameLogic.js:38-40 | an attack crits exactly on draws below 1/5 |
| `GameLogic.RiddleTableWellFormed` | src/utils/gameLogic.js:59-81 | every riddle's answer is one of its options |
| `GameLogic.GeneratePuzzleAsWritten` | src/utils/gameLogic.js:83-84 | as written, the lookup yields `undefined` exactly for names inherited from `Object.prototype` |
| `GameLogic.GeneratePuzzle` | src/utils/gameLogic.js:83-84 | the riddle comes from the selected tier; any non-tier name selects easy; the answer is among the options |
| `GameLogic.GeneratePuzzleDeterministic` | src/utils/gameLogic.js:59-84 | one riddle per tier, so the draw never matters; an unknown difficulty equals `'easy'`; `'hard'` gives the hard riddle |
| `GameLogic.GeneratePuzzleAgrees` | src/utils/gameLogic.js:83-84 | away from inherited names, the code as written equals the intended function |
| `GameLogic.InheritedNameYieldsNoPuzzle` | src/utils/gameLogic.js:83-84 | `'constructor'` yields `undefined` as written, where the easy riddle was intended |
| `Ranking.Compare` | src/store/gameStore.js:137-141 | the comparator is at most 0 exactly when `a` is at least `b` in the descending (level, fragments, experience) order, and 0 exactly on equal keys |
| `Ranking.KeyOrderIsTotal` | src/store/gameStore.js:137-141 | the comparator is the descending lexicographic order on (level, fragments, experience); it is total and reports a tie exactly on equal keys |
| `Ranking.FindIndex` | src/store/gameStore.js:118 | `findIndex` returns -1 exactly when no entry has the id, and otherwise the first such position |
| `Ranking.Upsert` | src/store/gameStore.js:118-134 | a found entry gets the new level, experience and fragments, keeps its id and name, and no other entry changes; otherwise the candidate is appended; unique ids stay unique |
| `Ranking.UpsertSingleEntry` | src/store/gameStore.js:118-134 | with unique ids, exactly one entry carries the player's id afterwards |
| `Ranking.Insert` | src/store/gameStore.js:137-141 | inserting into a sorted list keeps it sorted and adds exactly the one entry |
| `Ranking.SortRankings` | src/store/gameStore.js:137-141 | the sorted list is in descending key order and is a permutation of the input |
| `Ranking.SortKeepsUniqueIds` | src/store/gameStore.js:137-141 | sorting keeps one entry per id |
| `Ranking.SortIsStable` | src/store/gameStore.js:137-141 | entries with equal keys keep their relative order |
| `Ranking.StableSortIsUnique` | src/store/gameStore.js:137-141 | any sorted arrangement that keeps the per-key order equals `SortRankings` |
| `GameStore.IsLoggedIn` | src/store/gameStore.js:34 | a missing id and the empty-string id both count as logged out; any non-empty id counts as logged in |
| `GameStore.PlayerRank` | src/store/gameStore.js:35-37 | `playerRank` is 0 exactly when no entry has the player's id; otherwise it is the 1-based position of the first such entry |
| `GameStore.MergePlayer` | src/store/gameStore.js:45 | an object spread: each present field overwrites and each absent field is kept |
| `GameStore.CheckLevelUp` | src/store/gameStore.js:86-93 | at or above `getExpForLevel(level)`, the level rises by exactly one, experience becomes 0 and hp 3; below it the player is unchanged |
| `GameStore.SaveGameProgress` | src/store/gameStore.js:95-103 | logged out, nothing happens; logged in, the snapshot goes under the player's id and every other record is untouched |
| `GameStore.LoadGameProgress` | src/store/gameStore.js:105-114 | with a record for the logged-in id, the game state and the whole player become the saved ones; otherwise nothing changes |
| `GameStore.LoginUser` | src/store/gameStore.js:44-47 | the payload is merged, then the saved record (if any) replaces the player and game state; with no record, the merged player and current game state are kept |
| `GameStore.Logout` | src/store/gameStore.js:49-58 | the player returns to the defaults (logged out); game state, rankings and storage are kept |
| `GameStore.AddFragment` | src/store/gameStore.js:61-66 | a known id changes nothing, storage included; a new id is appended at the end, nothing else in the game state changes, and the result is exactly the save of the new state; no duplicates appear |
| `GameStore.PlayerEntry` | src/store/gameStore.js:127-133 | the pushed entry carries the player's id and name, and its sort key is the player's level, fragment count and experience |
| `GameStore.UpdateRankings` | src/store/gameStore.js:116-144 | the list is the stable sort of the upserted list, so it is sorted, a permutation of it, and contains the player with current stats; unique ids stay unique; the storage slot equals the list |
| `GameStore.CompleteLocation` | src/store/gameStore.js:68-77 | a completed id changes nothing; a new one is appended with no other game-state change, gives +50 coins and +100 experience before the level-up, leaves the stored progress exactly as saving the rewarded state would (no change at all when logged out, `''` id included) and re-sorts the leaderboard with the rewarded player's entry |
| `GameStore.TakeDamage` | src/store/gameStore.js:79-83 | hp becomes `max(0, hp − amount)` and is never negative; the result is true exactly when hp stays positive; the save always runs |
| `GameStore.LoadRankings` | src/store/gameStore.js:146-151 | a stored list replaces the in-memory one; with none stored, nothing changes |
| `Session.SaveKeepsListInv` | src/store/gameStore.js:95-103 | saving keeps every stored game state free of duplicates and the stored leaderboard sorted with unique ids |
| `Session.SaveKeepsPlayersInv` | src/store/gameStore.js:95-103 | saving a player within bounds keeps every stored player within bounds |
| `Session.UpdateRankingsKeepsListInv` | src/store/gameStore.js:116-144 | the re-sorted leaderboard is sorted with unique ids, in memory and in storage |
| `Session.RewardKeepsPlayerInv` | src/store/gameStore.js:71-93 | +100 experience and one reset-to-zero level-up keep experience below `level·100` |
| `Session.CompleteLocationKeepsListInv` | src/store/gameStore.js:68-77 | completing a location keeps the lists duplicate-free and the leaderboard sorted with unique ids |
| `Session.CompleteLocationKeepsPlayersInv` | src/store/gameStore.js:68-93 | completing a location keeps the current and stored players within bounds |
| `Session.StepKeepsListInv` | src/store/gameStore.js:44-151 | every action, whatever the login payload, keeps fragments and locations duplicate-free and the leaderboard sorted with unique ids, in memory and in storage |
| `Session.StepKeepsPlayersInv` | src/store/gameStore.js:44-151 | every action whose login payload carries identity only keeps hp ≥ 0, coins ≥ 0, level ≥ 1 and experience < level·100, for the current and stored players |
| `Session.StepKeepsInv` | src/store/gameStore.js:44-151 | such actions keep both halves together |
| `Session.RunKeepsListInv` | src/store/gameStore.js:44-151 | any run of any actions keeps the list half |
| `Session.RunKeepsInv` | src/store/gameStore.js:44-151 | any run of identity-only actions keeps the whole invariant |
| `Session.FreshRunLists` | src/store/gameStore.js:5-31 | from the initial state, after any run the leaderboard is sorted with unique ids and no fragment or location appears twice |
| `Session.FreshRunBounds` | src/store/gameStore.js:5-31 | from the initial state, no run of identity-only actions reaches a pending level-up or negative hp |
| `Session.ExpForLevelIsLevelUpThreshold` | src/utils/gameLogic.js:21-23 | `getExpForLevel(level)` is exactly the threshold at which `checkLevelUp` grants a level |
| `Session.AddFragmentIdempotent` | src/store/gameStore.js:61-66 | collecting the same fragment twice equals collecting it once |
| `Session.CompleteLocationIdempotent` | src/store/gameStore.js:68-77 | completing the same location twice equals completing it once |
| `Session.FirstLocationLevelsUp` | src/store/gameStore.js:68-93 | at level 1 with 0 experience, a new location gives level 2, experience 0, hp 3 and 50 coins more |
| `Session.CollectedFragmentsCountsDistinct` | src/store/gameStore.js:38 | `collectedFragments` is the number of distinct fragments |
| `Session.AddFragmentsDistinct` | src/store/gameStore.js:61-66 | after collecting any list of ids, the fragments are exactly the distinct old and new ids, each once |
| `Session.AddFragmentsCountsDistinctIds` | src/store/gameStore.js:61-66 | from no fragments, the count equals the number of distinct ids passed |
| `Session.LoggedOutPersistenceIsNoOp` | src/store/gameStore.js:95-114 | logged out, save and load change nothing |
| `Session.LoadAfterSave` | src/store/gameStore.js:95-114 | load right after save leaves the store as saved |
| `Session.SaveLogoutLoginRestores` | src/store/gameStore.js:44-114 | save, logout, then login with the same id restores the game state and the whole saved player |

`totalFragments` is the constant `GameStore.TotalFragments` (3). `collectedFragments` is `GameStore.CollectedFragments`, and `takeDamage()` with no argument is `GameStore.TakeDefaultDamage`.

## Left out

- `localStorage`, `JSON.stringify` / `JSON.parse` and the key strings `gameProgress_<id>` / `treasureRankings` are modelled as a map keyed by player id and one optional slot, with identity serialisation. Parse errors and quota failures are not guarded in the code and are not modelled. Neither is the key collision between a numeric id and its string form.
- Stored snapshots are assumed to be the ones `saveGameProgress` writes, so every player field is present. A record with missing fields would merge only partially.
- Fields of a login payload other than the six player fields, and values of the wrong JavaScript type, are not modelled. JavaScript numbers are modelled as unbounded integers: there is no 2^53 precision limit, no fractional amounts, levels or experience, and no exponent form: from 10^21 on, `toString` writes `"1e+21"`, so `Decimal.NatToString` and `GameLogic.FormatTime` are exact only below 10^21 (hours below 10^21).
- `Math.random()` is modelled as an exact rational. The float rounding of `Math.random() * n` and of the literal `0.2` is not modelled.
- `GameLogic.RandomInt`: states the range and that every value is reachable, but not that the draw is uniform (a probability statement).
- `GameLogic.CritDraws`: states which draws crit, not the 20% rate as a probability.
- `chance`, `generateId` and `calculateDodgeChance` are left out: they are random, time-based or floating point.
- `formatTime` with negative or fractional input is left out: it is floating-point behaviour.
- Pinia reactivity, the `settings` toggles, the unused `users` list, the router table and the build configuration are left out: they are plumbing.
- `Session.StepKeepsInv`: login payloads are restricted to identity fields (id and name). A payload that sets level, experience, hp or coins directly can place the player anywhere.
- `Session.StepKeepsPlayersInv`: the player bounds need the same identity-only restriction on login payloads.
- `Session.RunKeepsInv`: the player bounds hold only for runs whose logins carry identity only; a `loginUser` payload with `experience: 500` at level 1 leaves experience above `getExpForLevel(1)`. The list half holds for every run (`Session.RunKeepsListInv`).
- `Session.FreshRunBounds`: likewise restricted to identity-only logins; sortedness and unique ids are proved for every run by `Session.FreshRunLists`.

## Findings

| source | as written | input that shows it | evidently intended | confidence | as-written member | corrected member |
|---|---|---|---|---|---|---|
| src/utils/gameLogic.js:83-84 | `puzzles[difficulty] \|\| puzzles.easy` also finds properties inherited from `Object.prototype`. Such a property is truthy (a function, or the prototype itself), so the easy fallback is skipped, and indexing it by a number gives `undefined` | `generatePuzzle('constructor')` (also `'toString'`, `'__proto__'`, …) returns `undefined` | any difficulty other than easy/medium/hard falls back to the easy riddle | medium; not executed | `GameLogic.GeneratePuzzleAsWritten`, `GameLogic.InheritedNameYieldsNoPuzzle` | `GameLogic.GeneratePuzzle` |
