/** Sequences of store actions: the invariant every action keeps, the
    save/load round trips, and what repeated calls add up to. */
module Session {
  import opened Wrappers
  import opened Ranking
  import GameLogic
  import GameStore

  // ---------------------------------------------------------------------------
  // Invariant
  // ---------------------------------------------------------------------------

  /** Level at least 1, experience below the current threshold (no pending
      level-up), hp and coins not negative. */
  predicate PlayerInv(p: GameStore.Player) {
    && 1 <= p.level
    && 0 <= p.experience < GameLogic.GetExpForLevel(p.level)
    && 0 <= p.hp
    && 0 <= p.coins
  }

  predicate GameStateInv(g: GameStore.GameState) {
    GameStore.NoDuplicates(g.fragments) && GameStore.NoDuplicates(g.completedLocations)
  }

  predicate RankingsInv(rs: seq<RankingEntry>) {
    Sorted(rs) && UniqueIds(rs)
  }

  /** The list half of the invariant: fragment and location lists without
      duplicates, leaderboards sorted with one entry per id, in memory and in
      storage. No action can break it, whatever a login payload carries. */
  predicate ListInv(st: GameStore.Store) {
    && GameStateInv(st.state.gameState)
    && RankingsInv(st.state.rankings)
    && (forall k :: k in st.storage.progress ==> GameStateInv(st.storage.progress[k].gameState))
    && (st.storage.rankings.Some? ==> RankingsInv(st.storage.rankings.value))
  }

  /** The player half of the invariant, for the current and every stored player. */
  predicate PlayersInv(st: GameStore.Store) {
    && PlayerInv(st.state.player)
    && (forall k :: k in st.storage.progress ==> PlayerInv(st.storage.progress[k].player))
  }

  predicate StoreInv(st: GameStore.Store) {
    ListInv(st) && PlayersInv(st)
  }

  const InitialStore: GameStore.Store :=
    GameStore.Store(GameStore.InitialState, GameStore.Storage(map[], None))

  // ---------------------------------------------------------------------------
  // Actions
  // ---------------------------------------------------------------------------

  /** The store's public actions, as a caller issues them. */
  datatype Action =
    | LoginUser(patch: GameStore.PlayerPatch)
    | Logout
    | AddFragment(fragment: GameStore.FragmentId)
    | CompleteLocation(location: GameStore.LocationId)
    | TakeDamage(amount: int)
    | CheckLevelUp
    | SaveGameProgress
    | LoadGameProgress
    | UpdateRankings
    | LoadRankings

  /** A login payload that carries identity only (id and name). This is a
      modelling assumption: `loginUser` itself accepts any fields, and a
      payload that sets level or experience directly can place the player
      anywhere. */
  predicate Admissible(a: Action) {
    a.LoginUser? ==>
      a.patch.level.None? && a.patch.experience.None? && a.patch.hp.None? && a.patch.coins.None?
  }

  function Step(st: GameStore.Store, a: Action): GameStore.Store {
    match a
    case LoginUser(patch) => GameStore.LoginUser(st, patch)
    case Logout => GameStore.Logout(st)
    case AddFragment(f) => GameStore.AddFragment(st, f)
    case CompleteLocation(l) => GameStore.CompleteLocation(st, l)
    case TakeDamage(amount) => GameStore.TakeDamage(st, amount).store
    case CheckLevelUp => st.(state := st.state.(player := GameStore.CheckLevelUp(st.state.player)))
    case SaveGameProgress => GameStore.SaveGameProgress(st)
    case LoadGameProgress => GameStore.LoadGameProgress(st)
    case UpdateRankings => GameStore.UpdateRankings(st)
    case LoadRankings => GameStore.LoadRankings(st)
  }

  function Run(st: GameStore.Store, actions: seq<Action>): GameStore.Store
    decreases |actions|
  {
    if |actions| == 0 then st else Run(Step(st, actions[0]), actions[1..])
  }

  // ---------------------------------------------------------------------------
  // The invariant is kept
  // ---------------------------------------------------------------------------

  lemma AppendFreshKeepsNoDuplicates<T>(s: seq<T>, x: T)
    requires GameStore.NoDuplicates(s) && x !in s
    ensures GameStore.NoDuplicates(s + [x])
  {
  }

  /** Saving writes one more snapshot of the current state, so whatever holds
      of the current state and of every stored one still holds afterwards. */
  lemma SaveKeepsListInv(st: GameStore.Store)
    requires ListInv(st)
    ensures ListInv(GameStore.SaveGameProgress(st))
  {
    var r := GameStore.SaveGameProgress(st);
    if GameStore.IsLoggedIn(st.state) {
      forall k | k in r.storage.progress ensures GameStateInv(r.storage.progress[k].gameState) {
        if k != st.state.player.id.value { assert k in st.storage.progress; }
      }
    }
  }

  lemma SaveKeepsPlayersInv(st: GameStore.Store)
    requires PlayersInv(st)
    ensures PlayersInv(GameStore.SaveGameProgress(st))
  {
    var r := GameStore.SaveGameProgress(st);
    if GameStore.IsLoggedIn(st.state) {
      forall k | k in r.storage.progress ensures PlayerInv(r.storage.progress[k].player) {
        if k != st.state.player.id.value { assert k in st.storage.progress; }
      }
    }
  }

  /** Re-sorting the leaderboard keeps it sorted with unique ids, in memory
      and in storage. */
  lemma UpdateRankingsKeepsListInv(st: GameStore.Store)
    requires ListInv(st)
    ensures ListInv(GameStore.UpdateRankings(st))
    ensures PlayersInv(st) ==> PlayersInv(GameStore.UpdateRankings(st))
  {
  }

  /** +100 experience followed by at most one reset-to-zero level-up never
      leaves experience at or above the threshold. */
  lemma RewardKeepsPlayerInv(p: GameStore.Player)
    requires PlayerInv(p)
    ensures PlayerInv(GameStore.CheckLevelUp(p.(experience := p.experience + GameStore.LocationExperience,
                                                coins := p.coins + GameStore.LocationCoins)))
  {
  }

  /** The store `completeLocation` saves before re-sorting the leaderboard. */
  function Rewarded(st: GameStore.Store, location: GameStore.LocationId): GameStore.Store {
    var p := st.state.player;
    var gs := st.state.gameState;
    GameStore.Store(
      st.state.(player := GameStore.CheckLevelUp(p.(experience := p.experience + GameStore.LocationExperience,
                                                    coins := p.coins + GameStore.LocationCoins)),
                gameState := gs.(completedLocations := gs.completedLocations + [location])),
      st.storage)
  }

  /** Completing a location keeps the list half of the invariant. */
  lemma CompleteLocationKeepsListInv(st: GameStore.Store, location: GameStore.LocationId)
    requires ListInv(st)
    ensures ListInv(GameStore.CompleteLocation(st, location))
  {
    var gs := st.state.gameState;
    if location !in gs.completedLocations {
      var mid := Rewarded(st, location);
      assert GameStore.CompleteLocation(st, location) == GameStore.UpdateRankings(GameStore.SaveGameProgress(mid));
      AppendFreshKeepsNoDuplicates(gs.completedLocations, location);
      SaveKeepsListInv(mid);
      UpdateRankingsKeepsListInv(GameStore.SaveGameProgress(mid));
    }
  }

  /** Completing a location keeps the player half of the invariant. */
  lemma CompleteLocationKeepsPlayersInv(st: GameStore.Store, location: GameStore.LocationId)
    requires PlayersInv(st)
    ensures PlayersInv(GameStore.CompleteLocation(st, location))
  {
    var gs := st.state.gameState;
    if location !in gs.completedLocations {
      var mid := Rewarded(st, location);
      assert GameStore.CompleteLocation(st, location) == GameStore.UpdateRankings(GameStore.SaveGameProgress(mid));
      RewardKeepsPlayerInv(st.state.player);
      SaveKeepsPlayersInv(mid);
    }
  }

  /** Every action, with any login payload, keeps the list half. */
  lemma {:induction false} StepKeepsListInv(st: GameStore.Store, a: Action)
    requires ListInv(st)
    ensures ListInv(Step(st, a))
  {
    match a
    case LoginUser(patch) =>
    case Logout =>
    case AddFragment(f) =>
      var gs := st.state.gameState;
      if f !in gs.fragments {
        AppendFreshKeepsNoDuplicates(gs.fragments, f);
        SaveKeepsListInv(st.(state := st.state.(gameState := gs.(fragments := gs.fragments + [f]))));
      }
    case CompleteLocation(l) =>
      CompleteLocationKeepsListInv(st, l);
    case TakeDamage(amount) =>
      var p := st.state.player;
      var hp := if 0 > p.hp - amount then 0 else p.hp - amount;
      SaveKeepsListInv(st.(state := st.state.(player := p.(hp := hp))));
    case CheckLevelUp =>
    case SaveGameProgress =>
      SaveKeepsListInv(st);
    case LoadGameProgress =>
    case UpdateRankings =>
      UpdateRankingsKeepsListInv(st);
    case LoadRankings =>
  }

  /** Every admissible action keeps the player half. */
  lemma {:induction false} StepKeepsPlayersInv(st: GameStore.Store, a: Action)
    requires PlayersInv(st) && Admissible(a)
    ensures PlayersInv(Step(st, a))
  {
    match a
    case LoginUser(patch) =>
      var merged := st.(state := st.state.(player := GameStore.MergePlayer(st.state.player, patch)));
      assert PlayerInv(merged.state.player);
      assert GameStore.LoginUser(st, patch) == GameStore.LoadGameProgress(merged);
    case Logout =>
    case AddFragment(f) =>
      var gs := st.state.gameState;
      if f !in gs.fragments {
        SaveKeepsPlayersInv(st.(state := st.state.(gameState := gs.(fragments := gs.fragments + [f]))));
      }
    case CompleteLocation(l) =>
      CompleteLocationKeepsPlayersInv(st, l);
    case TakeDamage(amount) =>
      var p := st.state.player;
      var hp := if 0 > p.hp - amount then 0 else p.hp - amount;
      SaveKeepsPlayersInv(st.(state := st.state.(player := p.(hp := hp))));
    case CheckLevelUp =>
    case SaveGameProgress =>
      SaveKeepsPlayersInv(st);
    case LoadGameProgress =>
    case UpdateRankings =>
      assert GameStore.UpdateRankings(st).state.player == st.state.player;
    case LoadRankings =>
  }

  lemma StepKeepsInv(st: GameStore.Store, a: Action)
    requires StoreInv(st) && Admissible(a)
    ensures StoreInv(Step(st, a))
  {
    StepKeepsListInv(st, a);
    StepKeepsPlayersInv(st, a);
  }

  /** Any run, whatever the login payloads, keeps the list half. */
  lemma {:induction false} RunKeepsListInv(st: GameStore.Store, actions: seq<Action>)
    requires ListInv(st)
    ensures ListInv(Run(st, actions))
    decreases |actions|
  {
    if |actions| > 0 {
      StepKeepsListInv(st, actions[0]);
      RunKeepsListInv(Step(st, actions[0]), actions[1..]);
    }
  }

  /** A run of admissible actions keeps the whole invariant: in addition,
      hp never negative and experience never at or above the threshold. */
  lemma {:induction false} RunKeepsInv(st: GameStore.Store, actions: seq<Action>)
    requires StoreInv(st)
    requires forall i :: 0 <= i < |actions| ==> Admissible(actions[i])
    ensures StoreInv(Run(st, actions))
    decreases |actions|
  {
    if |actions| > 0 {
      StepKeepsInv(st, actions[0]);
      RunKeepsInv(Step(st, actions[0]), actions[1..]);
    }
  }

  /** From a fresh browser, after any run at all the leaderboard is sorted with
      one entry per id and no fragment or location is listed twice. */
  lemma FreshRunLists(actions: seq<Action>)
    ensures var s := Run(InitialStore, actions).state;
      && Sorted(s.rankings) && UniqueIds(s.rankings)
      && GameStore.NoDuplicates(s.gameState.fragments)
      && GameStore.NoDuplicates(s.gameState.completedLocations)
  {
    RunKeepsListInv(InitialStore, actions);
  }

  /** From a fresh browser, after a run whose logins carry identity only, the
      player never owes a level-up and never has negative hp. */
  lemma FreshRunBounds(actions: seq<Action>)
    requires forall i :: 0 <= i < |actions| ==> Admissible(actions[i])
    ensures var p := Run(InitialStore, actions).state.player;
      p.experience < p.level * 100 && 0 <= p.hp
  {
    RunKeepsInv(InitialStore, actions);
  }

  // ---------------------------------------------------------------------------
  // Once-only effects
  // ---------------------------------------------------------------------------

  lemma AddFragmentIdempotent(st: GameStore.Store, f: GameStore.FragmentId)
    ensures GameStore.AddFragment(GameStore.AddFragment(st, f), f) == GameStore.AddFragment(st, f)
  {
  }

  lemma CompleteLocationIdempotent(st: GameStore.Store, l: GameStore.LocationId)
    ensures GameStore.CompleteLocation(GameStore.CompleteLocation(st, l), l) == GameStore.CompleteLocation(st, l)
  {
  }

  /** `getExpForLevel` is the threshold `checkLevelUp` applies: a level is
      gained exactly when experience reaches it. */
  lemma ExpForLevelIsLevelUpThreshold(p: GameStore.Player)
    ensures GameStore.CheckLevelUp(p).level == p.level + 1 <==> p.experience >= GameLogic.GetExpForLevel(p.level)
    ensures GameStore.CheckLevelUp(p).level == p.level <==> p.experience < GameLogic.GetExpForLevel(p.level)
  {
  }

  /** Level 1 with no experience: one new location reaches the 100 threshold,
      so the player is level 2 with experience 0, full hp and 50 more coins. */
  lemma FirstLocationLevelsUp(st: GameStore.Store, l: GameStore.LocationId)
    requires st.state.player.level == 1 && st.state.player.experience == 0
    requires l !in st.state.gameState.completedLocations
    ensures var q := GameStore.CompleteLocation(st, l).state.player;
      q.level == 2 && q.experience == 0 && q.hp == GameStore.MaxHp && q.coins == st.state.player.coins + 50
  {
  }

  // ---------------------------------------------------------------------------
  // Repeated fragment collection
  // ---------------------------------------------------------------------------

  function Elems<T>(s: seq<T>): set<T> {
    set x | x in s
  }

  /** A duplicate-free list has as many elements as distinct values. */
  lemma {:induction false} NoDuplicatesCard<T>(s: seq<T>)
    requires GameStore.NoDuplicates(s)
    ensures |Elems(s)| == |s|
    decreases |s|
  {
    if |s| > 0 {
      var init := s[..|s| - 1];
      var last := s[|s| - 1];
      assert s == init + [last];
      NoDuplicatesCard(init);
      assert Elems(s) == Elems(init) + {last};
      forall i | 0 <= i < |init| ensures init[i] != last {
        assert s[i] == init[i];
      }
      assert last !in Elems(init);
    }
  }

  /** `collectedFragments` counts distinct fragments. */
  lemma CollectedFragmentsCountsDistinct(s: GameStore.State)
    requires GameStore.NoDuplicates(s.gameState.fragments)
    ensures GameStore.CollectedFragments(s) == |Elems(s.gameState.fragments)|
  {
    NoDuplicatesCard(s.gameState.fragments);
  }

  function AddFragments(st: GameStore.Store, fs: seq<GameStore.FragmentId>): GameStore.Store
    decreases |fs|
  {
    if |fs| == 0 then st else AddFragments(GameStore.AddFragment(st, fs[0]), fs[1..])
  }

  /** Collecting a list of ids, repeats included, leaves exactly the distinct
      ids (old and new) in the fragment list, each once. */
  lemma ElemsCons<T>(s: seq<T>)
    requires |s| > 0
    ensures Elems(s) == {s[0]} + Elems(s[1..])
  {
    assert s == [s[0]] + s[1..];
  }

  /** One collection step on the fragment list. */
  lemma AddFragmentElems(st: GameStore.Store, f: GameStore.FragmentId)
    requires GameStore.NoDuplicates(st.state.gameState.fragments)
    ensures var after := GameStore.AddFragment(st, f).state.gameState.fragments;
      GameStore.NoDuplicates(after) && Elems(after) == Elems(st.state.gameState.fragments) + {f}
  {
    var before := st.state.gameState.fragments;
    if f !in before {
      assert GameStore.AddFragment(st, f).state.gameState.fragments == before + [f];
    }
  }

  lemma {:induction false} AddFragmentsDistinct(st: GameStore.Store, fs: seq<GameStore.FragmentId>)
    requires GameStore.NoDuplicates(st.state.gameState.fragments)
    ensures var out := AddFragments(st, fs).state.gameState.fragments;
      && GameStore.NoDuplicates(out)
      && Elems(out) == Elems(st.state.gameState.fragments) + Elems(fs)
      && |out| == |Elems(st.state.gameState.fragments) + Elems(fs)|
    decreases |fs|
  {
    var before := st.state.gameState.fragments;
    if |fs| == 0 {
      assert Elems(fs) == {};
      NoDuplicatesCard(before);
    } else {
      var next := GameStore.AddFragment(st, fs[0]);
      var after := next.state.gameState.fragments;
      assert AddFragments(st, fs) == AddFragments(next, fs[1..]);
      AddFragmentsDistinct(next, fs[1..]);
      AddFragmentElems(st, fs[0]);
      ElemsCons(fs);
    }
  }

  /** Starting with no fragments, the count is the number of distinct ids
      passed. */
  lemma AddFragmentsCountsDistinctIds(st: GameStore.Store, fs: seq<GameStore.FragmentId>)
    requires st.state.gameState.fragments == []
    ensures GameStore.CollectedFragments(AddFragments(st, fs).state) == |Elems(fs)|
  {
    AddFragmentsDistinct(st, fs);
    assert Elems(st.state.gameState.fragments) == {};
  }

  // ---------------------------------------------------------------------------
  // Save and load
  // ---------------------------------------------------------------------------

  /** Logged out, save and load change nothing at all. */
  lemma LoggedOutPersistenceIsNoOp(st: GameStore.Store)
    requires !GameStore.IsLoggedIn(st.state)
    ensures GameStore.SaveGameProgress(st) == st
    ensures GameStore.LoadGameProgress(st) == st
  {
  }

  /** Loading right after saving restores what was saved: the store is the
      saved one. */
  lemma LoadAfterSave(st: GameStore.Store)
    ensures GameStore.LoadGameProgress(GameStore.SaveGameProgress(st)) == GameStore.SaveGameProgress(st)
  {
  }

  /** Save, log out, log back in with the same id: the game state and the whole
      player are back, whatever else the login payload carried. */
  lemma SaveLogoutLoginRestores(st: GameStore.Store, patch: GameStore.PlayerPatch)
    requires GameStore.IsLoggedIn(st.state)
    requires patch.id == Some(st.state.player.id)
    ensures var r := GameStore.LoginUser(GameStore.Logout(GameStore.SaveGameProgress(st)), patch);
      r.state.player == st.state.player && r.state.gameState == st.state.gameState
  {
  }
}
