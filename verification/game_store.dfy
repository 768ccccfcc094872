/** The progress and ranking store (`useGameStore`): the in-memory state
    `{player, gameState, rankings}` together with the browser storage it
    persists to. Every action is a pure transition from one `Store` to the next.
    Storage holds one snapshot per player id (the `gameProgress_<id>` keys) and
    one global rankings slot (the `treasureRankings` key); serialisation is the
    identity. */
module GameStore {
  import opened Wrappers
  import opened Ranking
  import GameLogic

  type PlayerId = string
  type FragmentId = string
  type LocationId = string
  type SkillId = string

  const MaxHp: int := 3
  /** Experience and coins granted by a newly completed location. */
  const LocationExperience: int := 100
  const LocationCoins: int := 50
  /** The `totalFragments` getter: a constant. */
  const TotalFragments: int := 3

  datatype Player = Player(id: Option<PlayerId>, name: string, level: int, experience: int, hp: int, coins: int)

  /** The player a fresh store starts with and `logout` restores. */
  const DefaultPlayer: Player := Player(None, "", 1, 0, MaxHp, 0)

  /** A login payload or a stored player spread over the current player: each
      present field overwrites, each absent one keeps the current value. An
      `id` field may itself carry `null`. */
  datatype PlayerPatch = PlayerPatch(
    id: Option<Option<PlayerId>>, name: Option<string>, level: Option<int>,
    experience: Option<int>, hp: Option<int>, coins: Option<int>)

  datatype GameState = GameState(
    currentLocation: Option<LocationId>, fragments: seq<FragmentId>, skills: seq<SkillId>,
    revives: int, completedLocations: seq<LocationId>)

  const InitialGameState: GameState := GameState(None, [], [], 0, [])

  datatype State = State(player: Player, gameState: GameState, rankings: seq<RankingEntry>)

  const InitialState: State := State(DefaultPlayer, InitialGameState, [])

  /** What `saveGameProgress` writes under a player's key. */
  datatype Snapshot = Snapshot(gameState: GameState, player: Player)

  datatype Storage = Storage(progress: map<PlayerId, Snapshot>, rankings: Option<seq<RankingEntry>>)

  datatype Store = Store(state: State, storage: Storage)

  // ---------------------------------------------------------------------------
  // Getters
  // ---------------------------------------------------------------------------

  /** `isLoggedIn`: `!!player.id`, so an empty id counts as logged out too. */
  function IsLoggedIn(s: State): (b: bool)
    ensures s.player.id.None? ==> !b
    ensures s.player.id == Some("") ==> !b
    ensures s.player.id.Some? && |s.player.id.value| > 0 ==> b
  {
    s.player.id.Some? && s.player.id.value != ""
  }

  /** `playerRank`: the 1-based position of the first entry with the player's
      id, 0 when there is none. */
  function PlayerRank(s: State): (rank: nat)
    ensures rank <= |s.rankings|
    ensures rank == 0 <==> !HasId(s.rankings, s.player.id)
    ensures 0 < rank ==> s.rankings[rank - 1].id == s.player.id
    ensures forall i :: 0 <= i < rank - 1 ==> s.rankings[i].id != s.player.id
  {
    FindIndex(s.rankings, s.player.id) + 1
  }

  /** `collectedFragments`. */
  function CollectedFragments(s: State): nat {
    |s.gameState.fragments|
  }

  // ---------------------------------------------------------------------------
  // Player updates
  // ---------------------------------------------------------------------------

  /** `{ ...base, ...patch }` over the six player fields. */
  function MergePlayer(base: Player, patch: PlayerPatch): (r: Player)
    ensures r.id == if patch.id.Some? then patch.id.value else base.id
    ensures r.name == if patch.name.Some? then patch.name.value else base.name
    ensures r.level == if patch.level.Some? then patch.level.value else base.level
    ensures r.experience == if patch.experience.Some? then patch.experience.value else base.experience
    ensures r.hp == if patch.hp.Some? then patch.hp.value else base.hp
    ensures r.coins == if patch.coins.Some? then patch.coins.value else base.coins
  {
    Player(
      if patch.id.Some? then patch.id.value else base.id,
      if patch.name.Some? then patch.name.value else base.name,
      if patch.level.Some? then patch.level.value else base.level,
      if patch.experience.Some? then patch.experience.value else base.experience,
      if patch.hp.Some? then patch.hp.value else base.hp,
      if patch.coins.Some? then patch.coins.value else base.coins)
  }

  /** A stored player as a patch: every field is present. */
  function AsPatch(p: Player): PlayerPatch {
    PlayerPatch(Some(p.id), Some(p.name), Some(p.level), Some(p.experience), Some(p.hp), Some(p.coins))
  }

  /** `checkLevelUp`: one level at most. At or above the threshold the level
      goes up by one, experience restarts at 0 and hp is restored; below it
      nothing changes. The threshold is `getExpForLevel(level)`. */
  function CheckLevelUp(p: Player): (r: Player)
    ensures p.experience >= GameLogic.GetExpForLevel(p.level) ==>
      r == p.(level := p.level + 1, experience := 0, hp := MaxHp)
    ensures p.experience < GameLogic.GetExpForLevel(p.level) ==> r == p
    ensures r.id == p.id && r.name == p.name && r.coins == p.coins
    ensures p.level <= r.level <= p.level + 1
  {
    var expNeeded := p.level * 100;
    if p.experience >= expNeeded then p.(level := p.level + 1, experience := 0, hp := MaxHp)
    else p
  }

  // ---------------------------------------------------------------------------
  // Persistence
  // ---------------------------------------------------------------------------

  /** `saveGameProgress`: when logged in, the current game state and player go
      under the player's key; nothing else in storage changes. Logged out, it
      does nothing. */
  function SaveGameProgress(st: Store): (r: Store)
    ensures r.state == st.state
    ensures r.storage.rankings == st.storage.rankings
    ensures !IsLoggedIn(st.state) ==> r == st
    ensures IsLoggedIn(st.state) ==>
      var id := st.state.player.id.value;
      && id in r.storage.progress
      && r.storage.progress[id] == Snapshot(st.state.gameState, st.state.player)
      && r.storage.progress.Keys == st.storage.progress.Keys + {id}
      && forall k :: k in st.storage.progress && k != id ==> r.storage.progress[k] == st.storage.progress[k]
  {
    if IsLoggedIn(st.state) then
      var snap := Snapshot(st.state.gameState, st.state.player);
      st.(storage := st.storage.(progress := st.storage.progress[st.state.player.id.value := snap]))
    else st
  }

  /** `loadGameProgress`: when logged in and a snapshot exists for the id, the
      game state is replaced by the stored one and the stored player is spread
      over the current one. Storage and rankings never change. */
  function LoadGameProgress(st: Store): (r: Store)
    ensures r.storage == st.storage
    ensures r.state.rankings == st.state.rankings
    ensures !IsLoggedIn(st.state) || st.state.player.id.value !in st.storage.progress ==> r == st
    ensures IsLoggedIn(st.state) && st.state.player.id.value in st.storage.progress ==>
      var snap := st.storage.progress[st.state.player.id.value];
      r.state.gameState == snap.gameState && r.state.player == snap.player
  {
    if IsLoggedIn(st.state) && st.state.player.id.value in st.storage.progress then
      var snap := st.storage.progress[st.state.player.id.value];
      st.(state := st.state.(gameState := snap.gameState,
                             player := MergePlayer(st.state.player, AsPatch(snap.player))))
    else st
  }

  // ---------------------------------------------------------------------------
  // Actions
  // ---------------------------------------------------------------------------

  /** `loginUser(userData)`: spread the payload over the player, then load. */
  function LoginUser(st: Store, patch: PlayerPatch): (r: Store)
    ensures r.storage == st.storage && r.state.rankings == st.state.rankings
    ensures var merged := MergePlayer(st.state.player, patch);
      var logged := merged.id.Some? && merged.id.value != "";
      if logged && merged.id.value in st.storage.progress then
        r.state.player == st.storage.progress[merged.id.value].player
        && r.state.gameState == st.storage.progress[merged.id.value].gameState
      else
        r.state.player == merged && r.state.gameState == st.state.gameState
  {
    LoadGameProgress(st.(state := st.state.(player := MergePlayer(st.state.player, patch))))
  }

  /** `logout`: back to the default player; game state, rankings and storage
      are kept. */
  function Logout(st: Store): (r: Store)
    ensures !IsLoggedIn(r.state)
    ensures r.state.player == DefaultPlayer
    ensures r.state.gameState == st.state.gameState && r.state.rankings == st.state.rankings
    ensures r.storage == st.storage
  {
    st.(state := st.state.(player := DefaultPlayer))
  }

  /** `addFragment(fragment)`: set-like insertion. A new id is appended and the
      progress saved; a known id changes nothing, not even storage. */
  function AddFragment(st: Store, fragment: FragmentId): (r: Store)
    ensures fragment in r.state.gameState.fragments
    ensures fragment in st.state.gameState.fragments ==> r == st
    ensures fragment !in st.state.gameState.fragments ==>
      && |r.state.gameState.fragments| == |st.state.gameState.fragments| + 1
      && r.state.gameState.fragments[..|st.state.gameState.fragments|] == st.state.gameState.fragments
      && r.state.gameState == st.state.gameState.(fragments := st.state.gameState.fragments + [fragment])
      && r == SaveGameProgress(r.(storage := st.storage))
    ensures r.state.player == st.state.player && r.state.rankings == st.state.rankings
    ensures r.state.gameState.completedLocations == st.state.gameState.completedLocations
    ensures r.storage.rankings == st.storage.rankings
    ensures NoDuplicates(st.state.gameState.fragments) ==> NoDuplicates(r.state.gameState.fragments)
  {
    var gs := st.state.gameState;
    if fragment in gs.fragments then st
    else
      var next := gs.(fragments := gs.fragments + [fragment]);
      assert next.fragments[..|gs.fragments|] == gs.fragments;
      SaveGameProgress(st.(state := st.state.(gameState := next)))
  }

  /** `updateRankings`: upsert the player's entry (level, experience, fragment
      count), re-sort, and write the whole list to the rankings slot. */
  function UpdateRankings(st: Store): (r: Store)
    ensures r.state.player == st.state.player && r.state.gameState == st.state.gameState
    ensures r.storage.progress == st.storage.progress
    ensures r.storage.rankings == Some(r.state.rankings)
    ensures Sorted(r.state.rankings)
    ensures multiset(r.state.rankings) == multiset(Upsert(st.state.rankings, PlayerEntry(st.state)))
    ensures r.state.rankings == SortRankings(Upsert(st.state.rankings, PlayerEntry(st.state)))
    ensures HasId(r.state.rankings, st.state.player.id)
    ensures UniqueIds(st.state.rankings) ==>
      forall i :: 0 <= i < |r.state.rankings| && r.state.rankings[i].id == st.state.player.id ==>
        Key(r.state.rankings[i]) == Key(PlayerEntry(st.state))
    ensures UniqueIds(st.state.rankings) ==> UniqueIds(r.state.rankings)
  {
    var cand := PlayerEntry(st.state);
    var upserted := Upsert(st.state.rankings, cand);
    var sorted := SortRankings(upserted);
    RankingFacts(st.state.rankings, cand, sorted);
    st.(state := st.state.(rankings := sorted), storage := st.storage.(rankings := Some(sorted)))
  }

  /** The entry `updateRankings` would append for the current player. */
  function PlayerEntry(s: State): (e: RankingEntry)
    ensures e.id == s.player.id && e.name == s.player.name
    ensures Key(e) == (s.player.level, |s.gameState.fragments|, s.player.experience)
  {
    RankingEntry(s.player.id, s.player.name, s.player.level, s.player.experience, |s.gameState.fragments|)
  }

  /** Facts about the sorted upsert that `UpdateRankings` relies on. */
  lemma RankingFacts(rs: seq<RankingEntry>, cand: RankingEntry, s: seq<RankingEntry>)
    requires s == SortRankings(Upsert(rs, cand))
    ensures HasId(s, cand.id)
    ensures UniqueIds(rs) ==> UniqueIds(s)
    ensures UniqueIds(rs) ==> forall i :: 0 <= i < |s| && s[i].id == cand.id ==> Key(s[i]) == Key(cand)
  {
    var u := Upsert(rs, cand);
    var i :| 0 <= i < |u| && u[i].id == cand.id && Key(u[i]) == Key(cand);
    assert u[i] in multiset(s);
    if UniqueIds(rs) {
      SortKeepsUniqueIds(u);
      UpsertSingleEntry(rs, cand);
      forall j | 0 <= j < |s| && s[j].id == cand.id ensures Key(s[j]) == Key(cand) {
        assert s[j] in multiset(u);
        var m :| 0 <= m < |u| && u[m] == s[j];
      }
    }
  }

  /** `completeLocation(locationId)`: rewards a location once. A new id is
      appended, the player gains 100 experience and 50 coins, may level up,
      and the progress and rankings are saved. A completed id changes nothing. */
  function CompleteLocation(st: Store, location: LocationId): (r: Store)
    ensures location in r.state.gameState.completedLocations
    ensures location in st.state.gameState.completedLocations ==> r == st
    ensures location !in st.state.gameState.completedLocations ==>
      var p := st.state.player;
      var q := r.state.player;
      && r.state.gameState == st.state.gameState.(completedLocations := st.state.gameState.completedLocations + [location])
      && r.state.rankings == SortRankings(Upsert(st.state.rankings, PlayerEntry(r.state)))
      && r.storage.progress == SaveGameProgress(r.(storage := st.storage)).storage.progress
      && q.coins == p.coins + LocationCoins
      && q.id == p.id && q.name == p.name
      && (p.experience + LocationExperience >= GameLogic.GetExpForLevel(p.level) ==>
            q.level == p.level + 1 && q.experience == 0 && q.hp == MaxHp)
      && (p.experience + LocationExperience < GameLogic.GetExpForLevel(p.level) ==>
            q.level == p.level && q.experience == p.experience + LocationExperience && q.hp == p.hp)
      && r.storage.rankings == Some(r.state.rankings)
      && Sorted(r.state.rankings)
      && HasId(r.state.rankings, p.id)
      && (IsLoggedIn(st.state) ==>
            p.id.value in r.storage.progress && r.storage.progress[p.id.value] == Snapshot(r.state.gameState, q))
    ensures NoDuplicates(st.state.gameState.completedLocations) ==>
      NoDuplicates(r.state.gameState.completedLocations)
  {
    var gs := st.state.gameState;
    if location in gs.completedLocations then st
    else
      var p := st.state.player;
      var gs' := gs.(completedLocations := gs.completedLocations + [location]);
      var p' := CheckLevelUp(p.(experience := p.experience + LocationExperience, coins := p.coins + LocationCoins));
      var saved := SaveGameProgress(Store(st.state.(player := p', gameState := gs'), st.storage));
      UpdateRankings(saved)
  }

  /** The result of `takeDamage`: the new store and whether the player lives. */
  datatype DamageResult = DamageResult(store: Store, alive: bool)

  /** `takeDamage(amount)`: hp drops by `amount` but not below 0, the progress
      is saved whatever the amount, and the result tells whether hp is still
      positive. There is no upper clamp: a negative amount raises hp. */
  function TakeDamage(st: Store, amount: int): (r: DamageResult)
    ensures var hp := r.store.state.player.hp;
      && 0 <= hp
      && (st.state.player.hp - amount >= 0 ==> hp == st.state.player.hp - amount)
      && (hp == 0 <==> st.state.player.hp <= amount)
      && (r.alive <==> 0 < hp)
    ensures r.store.state.player == st.state.player.(hp := r.store.state.player.hp)
    ensures r.store.state.gameState == st.state.gameState && r.store.state.rankings == st.state.rankings
    ensures r.store == SaveGameProgress(r.store.(storage := st.storage))
  {
    var p := st.state.player;
    var hp := if 0 > p.hp - amount then 0 else p.hp - amount;
    var next := SaveGameProgress(st.(state := st.state.(player := p.(hp := hp))));
    DamageResult(next, next.state.player.hp > 0)
  }

  /** `takeDamage()` without an argument. */
  function TakeDefaultDamage(st: Store): DamageResult {
    TakeDamage(st, 1)
  }

  /** `loadRankings`: adopt the stored list when there is one; otherwise the
      in-memory list stays as it is. */
  function LoadRankings(st: Store): (r: Store)
    ensures r.storage == st.storage
    ensures r.state.player == st.state.player && r.state.gameState == st.state.gameState
    ensures st.storage.rankings.Some? ==> r.state.rankings == st.storage.rankings.value
    ensures st.storage.rankings.None? ==> r == st
  {
    match st.storage.rankings
    case Some(saved) => st.(state := st.state.(rankings := saved))
    case None => st
  }

  // ---------------------------------------------------------------------------
  // Shared predicates
  // ---------------------------------------------------------------------------

  predicate NoDuplicates<T(==)>(s: seq<T>) {
    forall i, j :: 0 <= i < j < |s| ==> s[i] != s[j]
  }
}
