/** The leaderboard: entries, the comparator `updateRankings` sorts with, the
    upsert by player id, and the sort itself. `Array.prototype.sort` is stable,
    so the sort is modelled as a stable insertion sort; it is proved sorted, a
    permutation of its input, stable, and the only arrangement with those
    properties. */
module Ranking {
  import opened Wrappers

  /** One leaderboard row. `id` is `None` for an entry written while nobody was
      logged in: `updateRankings` does not check the login. */
  datatype RankingEntry = RankingEntry(id: Option<string>, name: string, level: int, experience: int, fragments: int)

  /** The sort key, compared lexicographically and descending. */
  function Key(e: RankingEntry): (int, int, int) {
    (e.level, e.fragments, e.experience)
  }

  /** The comparator passed to `sort`: positive exactly when `b` must come
      before `a`. */
  function Compare(a: RankingEntry, b: RankingEntry): (c: int)
    ensures c <= 0 <==> KeyAtLeast(a, b)
    ensures c == 0 <==> Key(a) == Key(b)
  {
    if b.level != a.level then b.level - a.level
    else if b.fragments != a.fragments then b.fragments - a.fragments
    else b.experience - a.experience
  }

  /** `a` may stand before `b`: higher level, then more fragments, then more
      experience. */
  predicate KeyAtLeast(a: RankingEntry, b: RankingEntry) {
    || a.level > b.level
    || (a.level == b.level && a.fragments > b.fragments)
    || (a.level == b.level && a.fragments == b.fragments && a.experience >= b.experience)
  }

  /** The order the comparator implements is total, and two entries rank at
      least as high as each other exactly when their keys are equal. */
  lemma KeyOrderIsTotal(a: RankingEntry, b: RankingEntry)
    ensures KeyAtLeast(a, b) && KeyAtLeast(b, a) <==> Key(a) == Key(b)
    ensures KeyAtLeast(a, b) || KeyAtLeast(b, a)
  {
  }

  predicate Sorted(s: seq<RankingEntry>) {
    forall i, j :: 0 <= i < j < |s| ==> KeyAtLeast(s[i], s[j])
  }

  predicate HasId(s: seq<RankingEntry>, id: Option<string>) {
    exists i :: 0 <= i < |s| && s[i].id == id
  }

  predicate UniqueIds(s: seq<RankingEntry>) {
    forall i, j :: 0 <= i < j < |s| ==> s[i].id != s[j].id
  }

  /** `rankings.findIndex(r => r.id === id)`: the first matching position, or -1. */
  function FindIndex(s: seq<RankingEntry>, id: Option<string>): (i: int)
    ensures -1 <= i < |s|
    ensures i == -1 <==> !HasId(s, id)
    ensures 0 <= i ==> s[i].id == id && forall j :: 0 <= j < i ==> s[j].id != id
  {
    if |s| == 0 then -1
    else if s[0].id == id then 0
    else
      var k := FindIndex(s[1..], id);
      if k == -1 then -1 else k + 1
  }

  /** Writes `cand`'s level, experience and fragment count into the entry with
      its id, keeping that entry's name; appends `cand` when there is none. */
  function Upsert(s: seq<RankingEntry>, cand: RankingEntry): (r: seq<RankingEntry>)
    ensures HasId(s, cand.id) ==> |r| == |s|
    ensures HasId(s, cand.id) ==>
      var i := FindIndex(s, cand.id);
      && r[i].id == cand.id && r[i].name == s[i].name && Key(r[i]) == Key(cand)
      && forall j :: 0 <= j < |s| && j != i ==> r[j] == s[j]
    ensures !HasId(s, cand.id) ==> r == s + [cand]
    ensures exists i :: 0 <= i < |r| && r[i].id == cand.id && Key(r[i]) == Key(cand)
    ensures UniqueIds(s) ==> UniqueIds(r)
  {
    var i := FindIndex(s, cand.id);
    if i != -1 then
      var r := s[i := s[i].(level := cand.level, experience := cand.experience, fragments := cand.fragments)];
      assert r[i].id == cand.id && Key(r[i]) == Key(cand);
      r
    else
      var r := s + [cand];
      assert r[|s|] == cand;
      r
  }

  /** Under unique ids the player's entry is the only one carrying that id. */
  lemma UpsertSingleEntry(s: seq<RankingEntry>, cand: RankingEntry)
    requires UniqueIds(s)
    ensures var r := Upsert(s, cand);
      forall i, j :: 0 <= i < |r| && 0 <= j < |r| && r[i].id == cand.id && r[j].id == cand.id ==> i == j
  {
    assert UniqueIds(Upsert(s, cand));
  }

  /** If `h` ranks at least as high as every element of `rest` and `x`, it
      ranks at least as high as every element of any rearrangement of them. */
  lemma BoundedByHead(h: RankingEntry, t: seq<RankingEntry>, rest: seq<RankingEntry>, x: RankingEntry)
    requires multiset(t) == multiset(rest) + multiset{x}
    requires forall i :: 0 <= i < |rest| ==> KeyAtLeast(h, rest[i])
    requires KeyAtLeast(h, x)
    ensures forall j :: 0 <= j < |t| ==> KeyAtLeast(h, t[j])
  {
    forall j | 0 <= j < |t|
      ensures KeyAtLeast(h, t[j])
    {
      assert t[j] in multiset(t);
      if t[j] != x {
        assert t[j] in multiset(rest);
        var i :| 0 <= i < |rest| && rest[i] == t[j];
      }
    }
  }

  /** Inserts `x` into a sorted list after every entry that ranks at least as
      high, as one pass of the stable sort does. */
  function Insert(ys: seq<RankingEntry>, x: RankingEntry): (r: seq<RankingEntry>)
    requires Sorted(ys)
    ensures Sorted(r)
    ensures multiset(r) == multiset(ys) + multiset{x}
    ensures |r| == |ys| + 1
  {
    if |ys| == 0 then [x]
    else if Compare(ys[0], x) > 0 then
      var r := [x] + ys;
      assert forall j :: 0 <= j < |ys| ==> KeyAtLeast(x, ys[j]) by {
        KeyOrderIsTotal(ys[0], x);
      }
      r
    else
      var t := Insert(ys[1..], x);
      KeyOrderIsTotal(ys[0], x);
      BoundedByHead(ys[0], t, ys[1..], x);
      assert ys == [ys[0]] + ys[1..];
      [ys[0]] + t
  }

  /** The order `updateRankings` leaves the list in. */
  function SortRankings(s: seq<RankingEntry>): (r: seq<RankingEntry>)
    ensures Sorted(r)
    ensures multiset(r) == multiset(s)
    ensures |r| == |s|
    decreases |s|
  {
    if |s| == 0 then []
    else
      assert s == s[..|s| - 1] + [s[|s| - 1]];
      Insert(SortRankings(s[..|s| - 1]), s[|s| - 1])
  }

  // ---------------------------------------------------------------------------
  // Unique ids survive the sort
  // ---------------------------------------------------------------------------

  lemma {:induction false} InsertKeepsUniqueIds(ys: seq<RankingEntry>, x: RankingEntry)
    requires Sorted(ys) && UniqueIds(ys) && !HasId(ys, x.id)
    ensures UniqueIds(Insert(ys, x))
  {
    if |ys| == 0 {
    } else if Compare(ys[0], x) > 0 {
      var r := [x] + ys;
      forall i, j | 0 <= i < j < |r| ensures r[i].id != r[j].id {
        if i > 0 { assert r[i] == ys[i - 1] && r[j] == ys[j - 1]; }
        else { assert r[j] == ys[j - 1]; }
      }
    } else {
      var rest := ys[1..];
      InsertKeepsUniqueIds(rest, x);
      var t := Insert(rest, x);
      forall j | 0 <= j < |t| ensures ys[0].id != t[j].id {
        assert t[j] in multiset(t);
        if t[j] != x {
          assert t[j] in multiset(rest);
          var k :| 0 <= k < |rest| && rest[k] == t[j];
          assert ys[0].id != ys[k + 1].id;
        } else {
          assert ys[0].id != x.id;
        }
      }
      var r := [ys[0]] + t;
      forall i, j | 0 <= i < j < |r| ensures r[i].id != r[j].id {
        if i > 0 { assert r[i] == t[i - 1] && r[j] == t[j - 1]; }
        else { assert r[j] == t[j - 1]; }
      }
    }
  }

  /** Sorting a list with one entry per id keeps one entry per id. */
  lemma {:induction false} SortKeepsUniqueIds(s: seq<RankingEntry>)
    requires UniqueIds(s)
    ensures UniqueIds(SortRankings(s))
    decreases |s|
  {
    if |s| > 0 {
      var init := s[..|s| - 1];
      var last := s[|s| - 1];
      SortKeepsUniqueIds(init);
      var sorted := SortRankings(init);
      forall i | 0 <= i < |sorted| ensures sorted[i].id != last.id {
        assert sorted[i] in multiset(init);
        var m :| 0 <= m < |init| && init[m] == sorted[i];
        assert s[m] == init[m];
      }
      InsertKeepsUniqueIds(sorted, last);
    }
  }

  // ---------------------------------------------------------------------------
  // Stability: entries with equal keys keep their relative order
  // ---------------------------------------------------------------------------

  /** The subsequence of entries whose key is `k`. */
  function WithKey(s: seq<RankingEntry>, k: (int, int, int)): (r: seq<RankingEntry>)
    ensures forall i :: 0 <= i < |r| ==> Key(r[i]) == k
  {
    if |s| == 0 then []
    else (if Key(s[0]) == k then [s[0]] else []) + WithKey(s[1..], k)
  }

  lemma WithKeyHead(s: seq<RankingEntry>)
    requires |s| > 0
    ensures WithKey(s, Key(s[0])) != []
  {
  }

  /** What the key selects comes from the list. */
  lemma {:induction false} WithKeyMember(s: seq<RankingEntry>, k: (int, int, int), i: nat)
    requires i < |WithKey(s, k)|
    ensures WithKey(s, k)[i] in s
  {
    var h: seq<RankingEntry> := if Key(s[0]) == k then [s[0]] else [];
    assert WithKey(s, k) == h + WithKey(s[1..], k);
    if i >= |h| {
      WithKeyMember(s[1..], k, i - |h|);
      assert WithKey(s, k)[i] == WithKey(s[1..], k)[i - |h|];
    }
  }

  lemma {:induction false} WithKeyConcat(a: seq<RankingEntry>, b: seq<RankingEntry>, k: (int, int, int))
    ensures WithKey(a + b, k) == WithKey(a, k) + WithKey(b, k)
  {
    if |a| == 0 {
      assert a + b == b;
    } else {
      assert (a + b)[0] == a[0];
      assert (a + b)[1..] == a[1..] + b;
      WithKeyConcat(a[1..], b, k);
    }
  }

  lemma WithKeyCons(e: RankingEntry, t: seq<RankingEntry>, k: (int, int, int))
    ensures WithKey([e] + t, k) == (if Key(e) == k then [e] else []) + WithKey(t, k)
  {
    assert ([e] + t)[0] == e;
    assert ([e] + t)[1..] == t;
  }

  /** No entry of `s` has key `k` when the key selects nothing. */
  lemma {:induction false} WithKeyEmpty(s: seq<RankingEntry>, k: (int, int, int))
    requires forall i :: 0 <= i < |s| ==> Key(s[i]) != k
    ensures WithKey(s, k) == []
  {
    if |s| > 0 {
      WithKeyEmpty(s[1..], k);
    }
  }

  /** When `x` goes in front, every entry behind it has a strictly lower key. */
  lemma InsertAheadStable(ys: seq<RankingEntry>, x: RankingEntry, k: (int, int, int))
    requires Sorted(ys) && |ys| > 0 && Compare(ys[0], x) > 0
    ensures WithKey([x] + ys, k) == WithKey(ys, k) + (if Key(x) == k then [x] else [])
  {
    WithKeyCons(x, ys, k);
    if Key(x) == k {
      forall i | 0 <= i < |ys| ensures Key(ys[i]) != k {
        KeyOrderIsTotal(ys[0], x);
      }
      WithKeyEmpty(ys, k);
    }
  }

  /** Putting the same head in front of two lists keeps a selection that
      differs only by a trailing `x`. */
  lemma ConsStable(h: RankingEntry, rest: seq<RankingEntry>, t: seq<RankingEntry>, x: RankingEntry, k: (int, int, int))
    requires WithKey(t, k) == WithKey(rest, k) + (if Key(x) == k then [x] else [])
    ensures WithKey([h] + t, k) == WithKey([h] + rest, k) + (if Key(x) == k then [x] else [])
  {
    var xs: seq<RankingEntry> := if Key(x) == k then [x] else [];
    var hs: seq<RankingEntry> := if Key(h) == k then [h] else [];
    WithKeyCons(h, t, k);
    WithKeyCons(h, rest, k);
    assert hs + (WithKey(rest, k) + xs) == (hs + WithKey(rest, k)) + xs;
  }

  lemma {:induction false} InsertStable(ys: seq<RankingEntry>, x: RankingEntry, k: (int, int, int))
    requires Sorted(ys)
    ensures WithKey(Insert(ys, x), k) == WithKey(ys, k) + (if Key(x) == k then [x] else [])
  {
    if |ys| == 0 {
      WithKeyCons(x, [], k);
      assert Insert(ys, x) == [x] + [];
    } else if Compare(ys[0], x) > 0 {
      assert Insert(ys, x) == [x] + ys;
      InsertAheadStable(ys, x, k);
    } else {
      InsertStable(ys[1..], x, k);
      assert Insert(ys, x) == [ys[0]] + Insert(ys[1..], x);
      ConsStable(ys[0], ys[1..], Insert(ys[1..], x), x, k);
      assert ys == [ys[0]] + ys[1..];
    }
  }

  /** Peeling the last entry off a list. */
  lemma WithKeyLast(s: seq<RankingEntry>, k: (int, int, int))
    requires |s| > 0
    ensures WithKey(s, k) == WithKey(s[..|s| - 1], k) + (if Key(s[|s| - 1]) == k then [s[|s| - 1]] else [])
  {
    var last := s[|s| - 1];
    assert s == s[..|s| - 1] + [last];
    WithKeyConcat(s[..|s| - 1], [last], k);
    assert [last][1..] == [];
  }

  /** The sort is stable: for every key, the entries carrying it appear in the
      same order before and after. */
  lemma {:induction false} SortIsStable(s: seq<RankingEntry>, k: (int, int, int))
    ensures WithKey(SortRankings(s), k) == WithKey(s, k)
    decreases |s|
  {
    if |s| > 0 {
      var init := s[..|s| - 1];
      var sorted := SortRankings(init);
      assert SortRankings(s) == Insert(sorted, s[|s| - 1]);
      SortIsStable(init, k);
      InsertStable(sorted, s[|s| - 1], k);
      WithKeyLast(s, k);
    }
  }

  /** Two sorted lists with the same entries per key, in the same order per
      key, are equal. */
  lemma {:induction false} SortedStableUnique(a: seq<RankingEntry>, b: seq<RankingEntry>)
    requires Sorted(a) && Sorted(b)
    requires forall k :: WithKey(a, k) == WithKey(b, k)
    ensures a == b
    decreases |a| + |b|
  {
    if |a| == 0 && |b| == 0 {
    } else if |a| == 0 {
      WithKeyHead(b);
    } else if |b| == 0 {
      WithKeyHead(a);
    } else {
      assert a == [a[0]] + a[1..];
      assert b == [b[0]] + b[1..];
      var ka := Key(a[0]);
      var kb := Key(b[0]);
      WithKeyCons(a[0], a[1..], ka);
      WithKeyCons(b[0], b[1..], ka);
      WithKeyCons(a[0], a[1..], kb);
      WithKeyCons(b[0], b[1..], kb);
      // b holds an entry with key ka, so b[0] ranks at least as high as a[0].
      var wa := WithKey(a, ka);
      assert wa[0] == a[0];
      assert WithKey(b, ka) == wa;
      WithKeyMember(b, ka, 0);
      var j :| 0 <= j < |b| && b[j] == wa[0];
      assert KeyAtLeast(b[0], a[0]) by {
        if j > 0 { assert KeyAtLeast(b[0], b[j]); }
      }
      var wb := WithKey(b, kb);
      assert wb[0] == b[0];
      assert WithKey(a, kb) == wb;
      WithKeyMember(a, kb, 0);
      var i :| 0 <= i < |a| && a[i] == wb[0];
      assert KeyAtLeast(a[0], b[0]) by {
        if i > 0 { assert KeyAtLeast(a[0], a[i]); }
      }
      KeyOrderIsTotal(a[0], b[0]);
      assert ka == kb;
      assert a[0] == b[0];
      forall k ensures WithKey(a[1..], k) == WithKey(b[1..], k) {
        var h: seq<RankingEntry> := if Key(a[0]) == k then [a[0]] else [];
        WithKeyCons(a[0], a[1..], k);
        WithKeyCons(b[0], b[1..], k);
        assert WithKey(a, k) == WithKey(b, k);
        assert h + WithKey(a[1..], k) == h + WithKey(b[1..], k);
        assert WithKey(a[1..], k) == (h + WithKey(a[1..], k))[|h|..];
        assert WithKey(b[1..], k) == (h + WithKey(b[1..], k))[|h|..];
      }
      SortedStableUnique(a[1..], b[1..]);
    }
  }

  /** `SortRankings` is THE stable descending sort: any sorted arrangement that
      keeps the per-key order of `s` is exactly its result. */
  lemma StableSortIsUnique(s: seq<RankingEntry>, t: seq<RankingEntry>)
    requires Sorted(t)
    requires forall k :: WithKey(t, k) == WithKey(s, k)
    ensures t == SortRankings(s)
  {
    forall k ensures WithKey(t, k) == WithKey(SortRankings(s), k) {
      SortIsStable(s, k);
    }
    SortedStableUnique(t, SortRankings(s));
  }
}
