/** The deterministic core of the game utilities (`gameUtils`, `combatSystem`,
    `puzzleSystem`). Every read of `Math.random()` is an explicit `Draw`
    parameter. */
module GameLogic {
  import opened Wrappers
  import opened Decimal

  // ---------------------------------------------------------------------------
  // Random draws
  // ---------------------------------------------------------------------------

  /** One value of `Math.random()`, taken as the exact rational num/den. */
  datatype Draw = Draw(num: nat, den: nat)

  /** `Math.random()` lies in [0, 1). */
  predicate ValidDraw(d: Draw) {
    0 < d.den && d.num < d.den
  }

  /** `Math.floor(Math.random() * n)`. The divisor is positive, so Dafny's
      Euclidean division is the floor. */
  function ScaledDraw(d: Draw, n: int): (k: int)
    requires ValidDraw(d)
    ensures 0 < n ==> 0 <= k < n
    ensures n <= 0 ==> n <= k <= 0
  {
    ScaledDrawBounds(d, n);
    (d.num * n) / d.den
  }

  /** For a non-negative factor, multiplication is monotone. */
  lemma MulMonotone(a: int, b: int, c: int)
    requires 0 <= a && b <= c
    ensures a * b <= a * c
  {
    var diff := c - b;
    assert a * c == a * b + a * diff;
    assert 0 <= a * diff;
  }

  /** Bounds on a floor quotient from bounds on the dividend. */
  lemma DivBetween(x: int, den: int, lo: int, hi: int)
    requires 0 < den
    requires den * lo <= x < den * hi
    ensures lo <= x / den < hi
  {
    var q := x / den;
    assert x == den * q + x % den && 0 <= x % den < den;
    if q >= hi {
      MulMonotone(den, hi, q);
      assert false;
    }
    if q < lo {
      assert den * (q + 1) == den * q + den;
      MulMonotone(den, q + 1, lo);
      assert false;
    }
  }

  lemma ScaledDrawBounds(d: Draw, n: int)
    requires ValidDraw(d)
    ensures 0 < n ==> 0 <= (d.num * n) / d.den < n
    ensures n <= 0 ==> n <= (d.num * n) / d.den <= 0
  {
    var x := d.num * n;
    if 0 < n {
      MulMonotone(n, 0, d.num);
      MulMonotone(n, d.num, d.den - 1);
      assert n * (d.den - 1) == d.den * n - n;
      assert d.den * 0 <= x < d.den * n;
      DivBetween(x, d.den, 0, n);
    } else {
      var m := -n;
      MulMonotone(m, 0, d.num);
      MulMonotone(m, d.num, d.den);
      assert x == -(m * d.num);
      assert d.den * n <= x <= 0;
      assert x < d.den * 1;
      DivBetween(x, d.den, n, 1);
    }
  }

  /** `randomInt(min, max)`: inclusive on both ends when min <= max. With the
      bounds swapped the expression still yields a value, in [max + 1, min]. */
  function RandomInt(min: int, max: int, d: Draw): (r: int)
    requires ValidDraw(d)
    ensures min <= max ==> min <= r <= max
    ensures max < min ==> max + 1 <= r <= min
  {
    ScaledDraw(d, max - min + 1) + min
  }

  /** Every value of [min, max] is produced by some draw. */
  lemma RandomIntCoversRange(min: int, max: int, v: int)
    requires min <= v <= max
    ensures ValidDraw(Draw(v - min, max - min + 1))
    ensures RandomInt(min, max, Draw(v - min, max - min + 1)) == v
  {
    var n := max - min + 1;
    var k := v - min;
    assert n * (k + 1) == n * k + n;
    DivBetween(k * n, n, k, k + 1);
  }

  // ---------------------------------------------------------------------------
  // Time formatting
  // ---------------------------------------------------------------------------

  /** The three fields `formatTime` prints. */
  datatype Clock = Clock(hours: nat, minutes: nat, secs: nat)

  function TotalSeconds(c: Clock): nat {
    c.hours * 3600 + c.minutes * 60 + c.secs
  }

  /** Hours by integer division, then minutes and seconds of the remainder. */
  function SplitSeconds(seconds: nat): (c: Clock)
    ensures c.minutes < 60 && c.secs < 60
    ensures TotalSeconds(c) == seconds
  {
    var rest := seconds % 3600;
    assert seconds == (seconds / 3600) * 3600 + rest;
    assert rest == (rest / 60) * 60 + rest % 60;
    assert seconds % 60 == rest % 60 by {
      assert seconds == ((seconds / 3600) * 60 + rest / 60) * 60 + rest % 60;
    }
    Clock(seconds / 3600, rest / 60, seconds % 60)
  }

  /** The split is the only one with minutes and seconds below 60, so the
      hours field is exactly seconds div 3600: nothing wraps at 24. */
  lemma {:induction false} SplitSecondsUnique(seconds: nat, c: Clock)
    requires c.minutes < 60 && c.secs < 60
    requires TotalSeconds(c) == seconds
    ensures c == SplitSeconds(seconds)
    ensures c.hours == seconds / 3600
  {
    var below := c.minutes * 60 + c.secs;
    assert 0 <= below < 3600;
    assert seconds == c.hours * 3600 + below;
    assert seconds / 3600 == c.hours && seconds % 3600 == below;
    assert below / 60 == c.minutes && below % 60 == c.secs;
    var s := SplitSeconds(seconds);
    assert s.hours == c.hours;
    assert s.minutes == c.minutes;
    assert s.secs == c.secs by {
      assert seconds == (c.hours * 60 + c.minutes) * 60 + c.secs;
    }
  }

  /** One field: `n.toString().padStart(2, '0')`. */
  function PadTwo(n: nat): (r: string)
    ensures AllDigits(r) && ValueOf(r) == n
    ensures |r| == if |NatToString(n)| < 2 then 2 else |NatToString(n)|
    ensures n < 100 ==> |r| == 2
  {
    ZeroPadValue(NatToString(n), 2);
    PadStart(NatToString(n), 2, '0')
  }

  /** `formatTime(seconds)` for a non-negative whole number of seconds:
      "H…H:MM:SS" where the hours field is at least two digits wide and keeps
      all its digits. */
  function FormatTime(seconds: nat): (r: string)
    ensures 8 <= |r|
    ensures r[|r| - 6] == ':' && r[|r| - 3] == ':'
    ensures AllDigits(r[..|r| - 6]) && AllDigits(r[|r| - 5..|r| - 3]) && AllDigits(r[|r| - 2..])
    ensures ValueOf(r[..|r| - 6]) == seconds / 3600
    ensures |r| - 6 == if seconds / 3600 < 10 then 2 else |NatToString(seconds / 3600)|
    ensures ValueOf(r[|r| - 5..|r| - 3]) == (seconds % 3600) / 60
    ensures ValueOf(r[|r| - 2..]) == seconds % 60
  {
    var c := SplitSeconds(seconds);
    var r := PadTwo(c.hours) + ":" + PadTwo(c.minutes) + ":" + PadTwo(c.secs);
    ClockFields(PadTwo(c.hours), PadTwo(c.minutes), PadTwo(c.secs));
    r
  }

  /** Where the three fields sit in "h:m:s" when m and s are two wide. */
  lemma ClockFields(h: string, m: string, s: string)
    requires |m| == 2 && |s| == 2
    ensures var r := h + ":" + m + ":" + s;
      && |r| == |h| + 6
      && r[|r| - 6] == ':' && r[|r| - 3] == ':'
      && r[..|r| - 6] == h && r[|r| - 5..|r| - 3] == m && r[|r| - 2..] == s
  {
    var r := h + ":" + m + ":" + s;
    var tail := ":" + m + ":" + s;
    assert r == h + tail;
    assert r[|h|..] == tail;
    assert tail[1..3] == m && tail[4..] == s;
  }

  /** Reads a "H…H:MM:SS" string back into its fields. */
  function ParseClock(s: string): Option<Clock> {
    if 8 <= |s| && s[|s| - 6] == ':' && s[|s| - 3] == ':'
       && AllDigits(s[..|s| - 6]) && AllDigits(s[|s| - 5..|s| - 3]) && AllDigits(s[|s| - 2..])
    then Some(Clock(ValueOf(s[..|s| - 6]), ValueOf(s[|s| - 5..|s| - 3]), ValueOf(s[|s| - 2..])))
    else None
  }

  /** Formatting loses nothing: the printed fields add back up to the input,
      with minutes and seconds below 60. */
  lemma FormatTimeRoundTrip(seconds: nat)
    ensures ParseClock(FormatTime(seconds)) == Some(SplitSeconds(seconds))
    ensures TotalSeconds(ParseClock(FormatTime(seconds)).value) == seconds
  {
  }

  // ---------------------------------------------------------------------------
  // Experience curve and combat
  // ---------------------------------------------------------------------------

  /** `getExpForLevel(level)`: experience needed to leave `level`. */
  function GetExpForLevel(level: int): (exp: int)
    ensures exp % 100 == 0 && exp / 100 == level
  {
    level * 100
  }

  /** `Math.random() < 0.2`, read exactly as num/den < 1/5. */
  predicate CritFires(d: Draw) {
    5 * d.num < d.den
  }

  /** `calculateDamage(attacker, defender, action)`; the combatants are not used. */
  function CalculateDamage<A, D>(attacker: A, defender: D, action: string, d: Draw): (damage: int)
    requires ValidDraw(d)
    ensures damage == 1 || damage == 2
    ensures action == "special" ==> damage == 2
    ensures action == "attack" ==> (damage == 2 <==> CritFires(d))
    ensures action != "attack" && action != "special" ==> damage == 1
  {
    if action == "attack" then
      var base := 1;
      if CritFires(d) then base * 2 else base
    else if action == "special" then 2
    else 1
  }

  /** The result depends on the action and the draw only. */
  lemma DamageIgnoresCombatants<A, D>(a1: A, d1: D, a2: A, d2: D, action: string, d: Draw)
    requires ValidDraw(d)
    ensures CalculateDamage(a1, d1, action, d) == CalculateDamage(a2, d2, action, d)
  {
  }

  /** An attack crits on exactly the draws below 1/5. */
  lemma CritDraws(d: Draw)
    requires ValidDraw(d)
    ensures CalculateDamage(0, 0, "attack", d) == 2 <==> d.num * 5 < d.den
  {
  }

  // ---------------------------------------------------------------------------
  // Riddles
  // ---------------------------------------------------------------------------

  datatype Riddle = Riddle(question: string, options: seq<string>, answer: string)

  const EasyTier: seq<Riddle> :=
    [Riddle("什么东西越洗越脏？", ["水", "衣服", "手", "碗"], "水")]
  const MediumTier: seq<Riddle> :=
    [Riddle("有头无脚，有眼无眉，无脚能走，有翅难飞。", ["鱼", "鸟", "蛇", "蝴蝶"], "鱼")]
  const HardTier: seq<Riddle> :=
    [Riddle("小时四条腿，长大两条腿，老了三条腿。", ["人", "青蛙", "恐龙", "马"], "人")]

  predicate WellFormedRiddle(r: Riddle) {
    r.answer in r.options
  }

  predicate IsTierName(difficulty: string) {
    difficulty == "easy" || difficulty == "medium" || difficulty == "hard"
  }

  /** The properties every JavaScript object inherits from `Object.prototype`;
      indexing the riddle table with one of these names finds a function (or,
      for `__proto__`, the prototype object) instead of a tier. */
  const ObjectPrototypeNames: set<string> := {
    "constructor", "__proto__", "toString", "toLocaleString", "valueOf",
    "hasOwnProperty", "isPrototypeOf", "propertyIsEnumerable",
    "__defineGetter__", "__defineSetter__", "__lookupGetter__", "__lookupSetter__"
  }

  /** Result of the property read `puzzles[difficulty]`. */
  datatype Lookup = OwnTier(riddles: seq<Riddle>) | Inherited | Missing

  function LookupTier(difficulty: string): Lookup {
    if difficulty == "easy" then OwnTier(EasyTier)
    else if difficulty == "medium" then OwnTier(MediumTier)
    else if difficulty == "hard" then OwnTier(HardTier)
    else if difficulty in ObjectPrototypeNames then Inherited
    else Missing
  }

  /** `generatePuzzle(difficulty)` as the code reads: `puzzles[difficulty] ||
      puzzles.easy`. An inherited member is truthy, so no fallback happens, and
      indexing it by a number gives `undefined` (here `None`). */
  function GeneratePuzzleAsWritten(difficulty: string, d: Draw): (r: Option<Riddle>)
    requires ValidDraw(d)
    ensures r.None? <==> difficulty in ObjectPrototypeNames
  {
    match LookupTier(difficulty)
    case OwnTier(tier) => Some(tier[ScaledDraw(d, |tier|)])
    case Inherited => None
    case Missing => Some(EasyTier[ScaledDraw(d, |EasyTier|)])
  }

  /** The tier a difficulty selects: its own tier, otherwise the easy one. */
  function SelectedTier(difficulty: string): seq<Riddle> {
    if difficulty == "medium" then MediumTier
    else if difficulty == "hard" then HardTier
    else EasyTier
  }

  /** `generatePuzzle(difficulty)` with the evident intent: any name other
      than a tier name falls back to the easy tier. */
  function GeneratePuzzle(difficulty: string, d: Draw): (r: Riddle)
    requires ValidDraw(d)
    ensures r in SelectedTier(difficulty)
    ensures !IsTierName(difficulty) ==> r in EasyTier
    ensures WellFormedRiddle(r)
  {
    var tier := SelectedTier(difficulty);
    tier[ScaledDraw(d, |tier|)]
  }

  /** Every riddle of the table has its answer among its options. */
  lemma RiddleTableWellFormed()
    ensures forall r :: r in EasyTier + MediumTier + HardTier ==> WellFormedRiddle(r)
  {
  }

  /** Each tier holds one riddle, so the draw never matters, and an unknown
      difficulty behaves exactly like "easy". */
  lemma GeneratePuzzleDeterministic(difficulty: string, d1: Draw, d2: Draw)
    requires ValidDraw(d1) && ValidDraw(d2)
    ensures GeneratePuzzle(difficulty, d1) == GeneratePuzzle(difficulty, d2)
    ensures !IsTierName(difficulty) ==> GeneratePuzzle(difficulty, d1) == GeneratePuzzle("easy", d2)
    ensures GeneratePuzzle("hard", d1) == HardTier[0]
  {
  }

  /** Away from the inherited names the code as written and the intended
      function agree. */
  lemma GeneratePuzzleAgrees(difficulty: string, d: Draw)
    requires ValidDraw(d)
    requires difficulty !in ObjectPrototypeNames
    ensures GeneratePuzzleAsWritten(difficulty, d) == Some(GeneratePuzzle(difficulty, d))
  {
  }

  /** The discrepancy: "constructor" yields `undefined` where the easy riddle
      was meant. */
  lemma InheritedNameYieldsNoPuzzle(d: Draw)
    requires ValidDraw(d)
    ensures GeneratePuzzleAsWritten("constructor", d) == None
    ensures GeneratePuzzle("constructor", d) == EasyTier[0]
  {
  }
}
