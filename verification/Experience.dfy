/** Levels and progress from a total of experience points (src/player/player.cpp). */
module Experience {

  newtype int32 = x: int | -0x8000_0000 <= x < 0x8000_0000

  const LEVEL_CAP := 21863

  /** The points it takes to reach the cap. */
  const CAP_COST := 2_147_407_943

  /** The distance from one to the next smaller 32-bit float: rounding a number at most `1 - STEP_BELOW_ONE`
      to such a float cannot give one. */
  const STEP_BELOW_ONE: real := 1.0 / 16777216.0

  /** The points from level `l` to the next. */
  function Needed(l: nat): (n: nat)
    ensures n >= 7
  {
    if l < 15 then 2 * l + 7 else if l < 30 then 5 * l - 38 else 9 * l - 158
  }

  /** Twice the points it takes to reach a level, as one polynomial for each of the three ranges. */
  function CostTwice(l: nat): int {
    if l <= 15 then 2 * (l * l + 6 * l)
    else if l <= 30 then 5 * (l * l) - 81 * l + 720
    else 9 * (l * l) - 325 * l + 4440
  }

  /** The points it takes to reach a level. */
  function Cost(l: nat): int {
    CostTwice(l) / 2
  }

  lemma NextSquare(l: nat)
    ensures (l + 1) * (l + 1) == l * l + 2 * l + 1 && l * l >= l
  {
  }

  lemma StepTwice(l: nat)
    ensures CostTwice(l + 1) == CostTwice(l) + 2 * Needed(l)
  {
    NextSquare(l);
  }

  /** The points of all steps up to a level. */
  ghost function Sum(l: nat): nat {
    if l == 0 then 0 else Sum(l - 1) + Needed(l - 1)
  }

  lemma {:induction false} TwiceSum(l: nat)
    ensures CostTwice(l) == 2 * Sum(l)
  {
    if l > 0 {
      TwiceSum(l - 1);
      StepTwice(l - 1);
    }
  }

  lemma Half(n: int, h: int)
    requires n == 2 * h
    ensures n / 2 == h
  {
  }

  /** The closed form adds up the steps. */
  lemma CostIsSum(l: nat)
    ensures Cost(l) == Sum(l) && Cost(l + 1) == Cost(l) + Needed(l)
  {
    TwiceSum(l);
    TwiceSum(l + 1);
    Half(CostTwice(l), Sum(l));
    Half(CostTwice(l + 1), Sum(l + 1));
  }

  lemma {:induction false} CostMonotone(a: nat, b: nat)
    requires a <= b
    ensures Cost(a) <= Cost(b) && (a < b ==> Cost(a) + 7 <= Cost(b))
  {
    if a < b {
      CostMonotone(a, b - 1);
      CostIsSum(b - 1);
    }
  }

  /** Levels at the two bends and beyond. */
  lemma KnownCosts()
    ensures Cost(0) == 0 && Cost(1) == 7 && Cost(16) == 352 && Cost(17) == 394 && Cost(31) == 1507
    ensures Cost(32) == 1628 && Cost(100) == 30970
  {
  }

  /** No 32-bit total pays for the level after the cap. */
  lemma CapIsOutOfReach(total: int32)
    ensures (total as int) < Cost(LEVEL_CAP + 1)
  {
  }

  function Points(total: int32): (p: nat) {
    if total < 0 then 0 else total as nat
  }

  datatype State = State(total: nat, level: nat, progress: real)

  /** The highest level the total pays for, and how far the rest goes to the next; at the cap the rest
      does not show. */
  ghost predicate Describes(s: State, total: int32) {
    && s.total == Points(total)
    && Cost(s.level) <= s.total
    && (forall l: nat :: Cost(l) <= s.total ==> l <= s.level)
    && s.progress == if s.level == LEVEL_CAP then 0.0 else (s.total - Cost(s.level)) as real / Needed(s.level) as real
  }

  lemma Greatest(level: nat, total: int)
    requires total < Cost(level + 1)
    ensures forall l: nat :: Cost(l) <= total ==> l <= level
  {
    forall l: nat | Cost(l) <= total ensures l <= level {
      if l > level {
        CostMonotone(level + 1, l);
      }
    }
  }

  /** A proper fraction of that many parts stays clear of one by more than a 32-bit float resolves. */
  lemma Fraction(part: int, whole: int)
    requires 0 <= part < whole <= 0x100_0000
    ensures 0.0 <= part as real / whole as real <= 1.0 - STEP_BELOW_ONE
  {
    var w := whole as real;
    QuotientAtMost(part as real, w, 1.0 - STEP_BELOW_ONE);
  }

  lemma QuotientAtMost(p: real, w: real, q: real)
    requires w > 0.0 && 0.0 <= p <= q * w
    ensures 0.0 <= p / w <= q
  {
    assert p == p / w * w;
    Ordered(p / w, q, w);
  }

  lemma Ordered(x: real, y: real, w: real)
    requires w > 0.0 && x * w <= y * w
    ensures x <= y
  {
    assert (y - x) * w >= 0.0;
  }

  method ExperienceFromTotal(total: int32) returns (s: State)
    ensures Describes(s, total)
    ensures 0.0 <= s.progress <= 1.0 - STEP_BELOW_ONE && s.level <= LEVEL_CAP
  {
    var points := if total < 0 then 0 else total as int;
    var remaining := points;
    var level := 0;
    var needed := 7;
    while remaining >= needed && level < LEVEL_CAP
      invariant 0 <= level <= LEVEL_CAP && remaining >= 0
      invariant needed == Needed(level) && points == Cost(level) + remaining
    {
      CostIsSum(level);
      remaining := remaining - needed;
      level := level + 1;
      needed := if level < 15 then 2 * level + 7 else if level < 30 then 5 * level - 38 else 9 * level - 158;
    }
    CapIsOutOfReach(total);
    CostIsSum(level);
    Greatest(level, points);
    var progress := 0.0;
    if level != LEVEL_CAP {
      Fraction(remaining, needed);
      progress := remaining as real / needed as real;
    }
    s := State(points, level, progress);
  }

  lemma SameFraction(x: int, y: int, n: int)
    requires n > 0 && x as real / n as real == y as real / n as real
    ensures x == y
  {
    assert x as real == x as real / n as real * n as real;
    assert y as real == y as real / n as real * n as real;
  }

  lemma LevelOf(s: State, total: int32)
    requires Describes(s, total)
    ensures s.level <= LEVEL_CAP && (s.level == LEVEL_CAP <==> Points(total) >= CAP_COST)
  {
    CapIsOutOfReach(total);
    if s.level > LEVEL_CAP {
      CostMonotone(LEVEL_CAP + 1, s.level);
    } else {
      CostMonotone(s.level, LEVEL_CAP);
    }
  }

  /** Level and progress show the total, except that all totals from the cost of the cap on look alike. */
  lemma LookAlike(a: int32, b: int32, s: State, t: State)
    requires Describes(s, a) && Describes(t, b)
    ensures s.level == t.level && s.progress == t.progress <==>
            Points(a) == Points(b) || (Points(a) >= CAP_COST && Points(b) >= CAP_COST)
  {
    LevelOf(s, a);
    LevelOf(t, b);
    if s.level == t.level && s.progress == t.progress && s.level != LEVEL_CAP {
      SameFraction(s.total - Cost(s.level), t.total - Cost(t.level), Needed(s.level));
    }
  }

  /** Dying never drops more points than the player has, and a hundred from level 15 on. */
  method ExperienceDropOnDeath(total: int32) returns (drop: nat)
    ensures drop <= Points(total) && drop <= 100
    ensures drop == 100 <==> Points(total) >= Cost(15)
    ensures drop < 100 ==> Cost(drop / 7) <= Points(total) < Cost(drop / 7 + 1) && drop % 7 == 0
  {
    var s := ExperienceFromTotal(total);
    drop := if 100 < s.level * 7 then 100 else s.level * 7;
    LevelBounds(s, total);
  }

  lemma LevelBounds(s: State, total: int32)
    requires Describes(s, total)
    ensures s.total < Cost(s.level + 1)
    ensures s.level >= 15 <==> s.total >= Cost(15)
    ensures s.level < 15 ==> 7 * s.level <= Cost(s.level)
  {
    assert !(Cost(s.level + 1) <= s.total);
    if s.level >= 15 {
      CostMonotone(15, s.level);
    } else {
      CostMonotone(s.level + 1, 15);
      NextSquare(s.level);
    }
  }
}
