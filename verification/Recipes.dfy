/** Recipe matching (src/inventory/inventory.cpp): shaped patterns slide over the grid and may be mirrored,
    shapeless ones are assigned slot by slot with backtracking. */
module Recipes {
  import opened Arithmetic
  import Items
  import opened Wrappers

  type Stack = Items.Stack
  type u16 = Items.u16

  /** The items an ingredient accepts; with none it stands for an empty slot. */
  datatype Ingredient = Ingredient(items: seq<nat>)

  predicate Matches(ingredient: Ingredient, s: Stack) {
    if ingredient.items == [] then s.count == 0 else s.count != 0 && s.kind.item in ingredient.items
  }

  datatype Recipe =
    | Shaped(id: string, width: nat, height: nat, ingredients: seq<Ingredient>, result: Stack)
    | Shapeless(id: string, ingredients: seq<Ingredient>, result: Stack)

  /** What the constructors demand. */
  predicate ValidRecipe(r: Recipe) {
    && r.result.count != 0
    && match r
       case Shaped(_, width, height, ingredients, _) =>
         1 <= width <= 3 && 1 <= height <= 3 && |ingredients| == width * height
       case Shapeless(_, ingredients, _) =>
         1 <= |ingredients| <= 9 && forall i :: 0 <= i < |ingredients| ==> ingredients[i].items != []
  }

  /** One for each occupied slot, zero for each empty one. */
  ghost predicate TakesOneEach(consumption: seq<u16>, grid: seq<Stack>) {
    && |consumption| == |grid|
    && forall s :: 0 <= s < |grid| ==> consumption[s] == if grid[s].count != 0 then 1 else 0
  }

  // ---------------------------------------------------------------------------------------
  // Shaped recipes
  // ---------------------------------------------------------------------------------------

  datatype Placement = Placement(x: nat, y: nat, mirrored: bool)

  predicate InGrid(r: Recipe, p: Placement, gridWidth: nat, gridHeight: nat)
    requires r.Shaped?
  {
    p.x + r.width <= gridWidth && p.y + r.height <= gridHeight
  }

  lemma IndexInPattern(r: Recipe, x: nat, y: nat)
    requires r.Shaped? && ValidRecipe(r) && x < r.width && y < r.height
    ensures y * r.width + x < |r.ingredients|
  {
    assert (y + 1) * r.width <= r.height * r.width;
  }

  /** The ingredient the pattern asks for at column `x` of row `y`. */
  function At(r: Recipe, p: Placement, x: nat, y: nat): Ingredient
    requires r.Shaped? && ValidRecipe(r)
  {
    if p.x <= x < p.x + r.width && p.y <= y < p.y + r.height then
      var patternX := if p.mirrored then r.width - 1 - (x - p.x) else x - p.x;
      IndexInPattern(r, patternX, y - p.y);
      r.ingredients[(y - p.y) * r.width + patternX]
    else Ingredient([])
  }

  /** The slot holds what the pattern asks for there. */
  predicate SlotFits(r: Recipe, p: Placement, gridWidth: nat, grid: seq<Stack>, s: nat)
    requires r.Shaped? && ValidRecipe(r) && gridWidth > 0 && s < |grid|
  {
    Matches(At(r, p, s % gridWidth, s / gridWidth), grid[s])
  }

  ghost predicate Fits(r: Recipe, p: Placement, gridWidth: nat, grid: seq<Stack>)
    requires r.Shaped? && ValidRecipe(r) && gridWidth > 0
  {
    forall s :: 0 <= s < |grid| ==> SlotFits(r, p, gridWidth, grid, s)
  }

  /** The pattern lies somewhere in the grid, mirrored or not, and every other slot is empty. */
  ghost predicate ShapedMatches(r: Recipe, gridWidth: nat, gridHeight: nat, grid: seq<Stack>)
    requires r.Shaped? && ValidRecipe(r) && gridWidth > 0
  {
    exists p :: InGrid(r, p, gridWidth, gridHeight) && Fits(r, p, gridWidth, grid)
  }

  lemma SlotOf(x: nat, y: nat, gridWidth: nat, gridHeight: nat)
    requires x < gridWidth && y < gridHeight
    ensures y * gridWidth + x < gridHeight * gridWidth
    ensures (y * gridWidth + x) % gridWidth == x && (y * gridWidth + x) / gridWidth == y
  {
    assert (y + 1) * gridWidth <= gridHeight * gridWidth;
    DivModUnique(y * gridWidth + x, gridWidth, y, x);
  }

  /** The slot in which ingredient `i` of row `j` of the pattern lies. */
  function PatternSlot(r: Recipe, p: Placement, gridWidth: nat, i: nat, j: nat): int
    requires r.Shaped?
  {
    (p.y + j) * gridWidth + p.x + if p.mirrored then r.width - 1 - i else i
  }

  /** Each ingredient of the pattern meets its slot, row by row, from left to right or mirrored, and all
      slots beside the pattern are empty. */
  ghost predicate Lies(r: Recipe, p: Placement, gridWidth: nat, gridHeight: nat, grid: seq<Stack>)
    requires r.Shaped? && ValidRecipe(r)
  {
    && (forall i: nat, j: nat {:trigger PatternSlot(r, p, gridWidth, i, j)} :: i < r.width && j < r.height ==>
          && 0 <= PatternSlot(r, p, gridWidth, i, j) < |grid| && 0 <= j * r.width + i < |r.ingredients|
          && Matches(r.ingredients[j * r.width + i], grid[PatternSlot(r, p, gridWidth, i, j)]))
    && (forall x: nat, y: nat {:trigger Beside(r, p, x, y)} :: x < gridWidth && y < gridHeight && Beside(r, p, x, y) ==>
          0 <= y * gridWidth + x < |grid| && grid[y * gridWidth + x].count == 0)
  }

  predicate Beside(r: Recipe, p: Placement, x: nat, y: nat)
    requires r.Shaped?
  {
    x < p.x || x >= p.x + r.width || y < p.y || y >= p.y + r.height
  }

  /** What fits slot by slot is the pattern lying in the grid. */
  lemma FitsJustWhen(r: Recipe, p: Placement, gridWidth: nat, gridHeight: nat, grid: seq<Stack>)
    requires r.Shaped? && ValidRecipe(r) && gridWidth > 0 && |grid| == gridHeight * gridWidth
    requires InGrid(r, p, gridWidth, gridHeight)
    ensures Fits(r, p, gridWidth, grid) <==> Lies(r, p, gridWidth, gridHeight, grid)
  {
    if Fits(r, p, gridWidth, grid) {
      forall i: nat, j: nat {:trigger PatternSlot(r, p, gridWidth, i, j)} | i < r.width && j < r.height
        ensures 0 <= PatternSlot(r, p, gridWidth, i, j) < |grid| && 0 <= j * r.width + i < |r.ingredients|
        ensures Matches(r.ingredients[j * r.width + i], grid[PatternSlot(r, p, gridWidth, i, j)])
      {
        SlotOfPattern(r, p, gridWidth, gridHeight, i, j);
        assert SlotFits(r, p, gridWidth, grid, PatternSlot(r, p, gridWidth, i, j));
      }
      forall x: nat, y: nat {:trigger Beside(r, p, x, y)} | x < gridWidth && y < gridHeight && Beside(r, p, x, y)
        ensures 0 <= y * gridWidth + x < |grid| && grid[y * gridWidth + x].count == 0
      {
        SlotOf(x, y, gridWidth, gridHeight);
        assert SlotFits(r, p, gridWidth, grid, y * gridWidth + x);
      }
    }
    if Lies(r, p, gridWidth, gridHeight, grid) {
      forall s | 0 <= s < |grid|
        ensures SlotFits(r, p, gridWidth, grid, s)
      {
        LiesAt(r, p, gridWidth, gridHeight, grid, s);
      }
    }
  }

  /** The slot of a pattern ingredient, by column and row. */
  lemma SlotOfPattern(r: Recipe, p: Placement, gridWidth: nat, gridHeight: nat, i: nat, j: nat)
    requires r.Shaped? && ValidRecipe(r) && gridWidth > 0 && i < r.width && j < r.height
    requires InGrid(r, p, gridWidth, gridHeight)
    ensures
      var s := PatternSlot(r, p, gridWidth, i, j);
      && 0 <= s < gridHeight * gridWidth && 0 <= j * r.width + i < |r.ingredients|
      && At(r, p, s % gridWidth, s / gridWidth) == r.ingredients[j * r.width + i]
  {
    SlotOf(p.x + if p.mirrored then r.width - 1 - i else i, p.y + j, gridWidth, gridHeight);
    IndexInPattern(r, i, j);
  }

  lemma LiesAt(r: Recipe, p: Placement, gridWidth: nat, gridHeight: nat, grid: seq<Stack>, s: nat)
    requires r.Shaped? && ValidRecipe(r) && gridWidth > 0 && s < |grid| == gridHeight * gridWidth
    requires InGrid(r, p, gridWidth, gridHeight) && Lies(r, p, gridWidth, gridHeight, grid)
    ensures SlotFits(r, p, gridWidth, grid, s)
  {
    ColumnRow(s, gridWidth, gridHeight);
    var x, y := s % gridWidth, s / gridWidth;
    if Beside(r, p, x, y) {
    } else {
      var i, j := if p.mirrored then r.width - 1 - (x - p.x) else x - p.x, y - p.y;
      SlotOfPattern(r, p, gridWidth, gridHeight, i, j);
      assert PatternSlot(r, p, gridWidth, i, j) == s;
    }
  }

  lemma ColumnRow(s: nat, gridWidth: nat, gridHeight: nat)
    requires gridWidth > 0 && s < gridHeight * gridWidth
    ensures s % gridWidth < gridWidth && s / gridWidth < gridHeight && s == s / gridWidth * gridWidth + s % gridWidth
  {
    MulOrder(s / gridWidth, gridHeight, gridWidth);
  }

  /** The slot opposite in the same row. */
  function Opposite(s: nat, gridWidth: nat, gridHeight: nat): (m: nat)
    requires gridWidth > 0 && s < gridHeight * gridWidth
    ensures m < gridHeight * gridWidth
    ensures m % gridWidth == gridWidth - 1 - s % gridWidth && m / gridWidth == s / gridWidth
  {
    ColumnRow(s, gridWidth, gridHeight);
    SlotOf(gridWidth - 1 - s % gridWidth, s / gridWidth, gridWidth, gridHeight);
    s / gridWidth * gridWidth + (gridWidth - 1 - s % gridWidth)
  }

  function Mirrored(grid: seq<Stack>, gridWidth: nat, gridHeight: nat): seq<Stack>
    requires gridWidth > 0 && |grid| == gridHeight * gridWidth
  {
    seq(|grid|, s requires 0 <= s < |grid| => grid[Opposite(s, gridWidth, gridHeight)])
  }

  /** Left and right do not matter to a shaped recipe. */
  lemma MirrorImage(r: Recipe, gridWidth: nat, gridHeight: nat, grid: seq<Stack>)
    requires r.Shaped? && ValidRecipe(r) && gridWidth > 0 && |grid| == gridHeight * gridWidth
    requires ShapedMatches(r, gridWidth, gridHeight, grid)
    ensures ShapedMatches(r, gridWidth, gridHeight, Mirrored(grid, gridWidth, gridHeight))
  {
    var p :| InGrid(r, p, gridWidth, gridHeight) && Fits(r, p, gridWidth, grid);
    var q := Placement(gridWidth - r.width - p.x, p.y, !p.mirrored);
    var mirror := Mirrored(grid, gridWidth, gridHeight);
    forall s | 0 <= s < |mirror| ensures SlotFits(r, q, gridWidth, mirror, s) {
      MirrorSlot(r, p, q, gridWidth, gridHeight, grid, s);
    }
    assert InGrid(r, q, gridWidth, gridHeight) && Fits(r, q, gridWidth, mirror);
  }

  lemma MirrorSlot(r: Recipe, p: Placement, q: Placement, gridWidth: nat, gridHeight: nat, grid: seq<Stack>, s: nat)
    requires r.Shaped? && ValidRecipe(r) && gridWidth > 0 && s < |grid| == gridHeight * gridWidth
    requires p.x + r.width <= gridWidth && q == Placement(gridWidth - r.width - p.x, p.y, !p.mirrored)
    requires Fits(r, p, gridWidth, grid)
    ensures SlotFits(r, q, gridWidth, Mirrored(grid, gridWidth, gridHeight), s)
  {
    var m := Opposite(s, gridWidth, gridHeight);
    assert SlotFits(r, p, gridWidth, grid, m);
    SameIngredient(r, p, q, gridWidth, s % gridWidth, m % gridWidth, s / gridWidth);
  }

  lemma SameIngredient(r: Recipe, p: Placement, q: Placement, gridWidth: nat, x: nat, m: nat, y: nat)
    requires r.Shaped? && ValidRecipe(r) && p.x + r.width <= gridWidth
    requires q == Placement(gridWidth - r.width - p.x, p.y, !p.mirrored) && x < gridWidth && m == gridWidth - 1 - x
    ensures At(r, q, x, y) == At(r, p, m, y)
  {
  }

  /** Mirroring the grid changes nothing, in either direction. */
  lemma MirrorJustWhen(r: Recipe, gridWidth: nat, gridHeight: nat, grid: seq<Stack>)
    requires r.Shaped? && ValidRecipe(r) && gridWidth > 0 && |grid| == gridHeight * gridWidth
    ensures ShapedMatches(r, gridWidth, gridHeight, grid) <==>
            ShapedMatches(r, gridWidth, gridHeight, Mirrored(grid, gridWidth, gridHeight))
  {
    var mirror := Mirrored(grid, gridWidth, gridHeight);
    if ShapedMatches(r, gridWidth, gridHeight, grid) {
      MirrorImage(r, gridWidth, gridHeight, grid);
    }
    if ShapedMatches(r, gridWidth, gridHeight, mirror) {
      MirrorImage(r, gridWidth, gridHeight, mirror);
      forall s | 0 <= s < |grid| ensures Mirrored(mirror, gridWidth, gridHeight)[s] == grid[s] {
        var m := Opposite(s, gridWidth, gridHeight);
        ColumnRow(Opposite(m, gridWidth, gridHeight), gridWidth, gridHeight);
        ColumnRow(s, gridWidth, gridHeight);
      }
      assert Mirrored(mirror, gridWidth, gridHeight) == grid;
    }
  }

  /** The first `n` slots fit, and their consumption is filled in. */
  ghost predicate SoFar(r: Recipe, p: Placement, gridWidth: nat, grid: seq<Stack>, consumption: seq<u16>, n: nat)
    requires r.Shaped? && ValidRecipe(r) && gridWidth > 0
  {
    && n <= |grid| == |consumption|
    && (forall s :: 0 <= s < n ==> SlotFits(r, p, gridWidth, grid, s))
    && forall s :: 0 <= s < |grid| ==> consumption[s] == if s < n && grid[s].count != 0 then 1 else 0
  }

  lemma NextSlot(r: Recipe, p: Placement, gridWidth: nat, gridHeight: nat, grid: seq<Stack>, consumption: seq<u16>,
                 x: nat, y: nat)
    requires r.Shaped? && ValidRecipe(r) && x < gridWidth && y < gridHeight && |grid| == gridHeight * gridWidth
    requires SoFar(r, p, gridWidth, grid, consumption, y * gridWidth + x)
    ensures
      var slot := y * gridWidth + x;
      && slot < |grid|
      && (if Matches(At(r, p, x, y), grid[slot]) then
            SoFar(r, p, gridWidth, grid, if At(r, p, x, y).items != [] then consumption[slot := 1]
                  else consumption, slot + 1)
          else !Fits(r, p, gridWidth, grid))
  {
    SlotOf(x, y, gridWidth, gridHeight);
    var slot := y * gridWidth + x;
    assert SlotFits(r, p, gridWidth, grid, slot) <==> Matches(At(r, p, x, y), grid[slot]);
  }

  /** Tries one placement, filling in the consumption. */
  method TryPlacement(r: Recipe, p: Placement, grid: seq<Stack>, gridWidth: nat, gridHeight: nat,
                      consumption: array<u16>)
    returns (matched: bool)
    requires r.Shaped? && ValidRecipe(r) && gridWidth > 0 && |grid| == gridHeight * gridWidth
    requires consumption.Length == |grid|
    modifies consumption
    ensures matched <==> Fits(r, p, gridWidth, grid)
    ensures matched ==> TakesOneEach(consumption[..], grid)
  {
    ClearAll(consumption);
    matched := true;
    var y := 0;
    while y < gridHeight && matched
      invariant y <= gridHeight
      invariant if matched then SoFar(r, p, gridWidth, grid, consumption[..], y * gridWidth)
          else !Fits(r, p, gridWidth, grid)
    {
      matched := TryRow(r, p, grid, gridWidth, gridHeight, y, consumption);
      y := y + 1;
    }
  }

  method ClearAll(a: array<u16>)
    modifies a
    ensures forall s :: 0 <= s < a.Length ==> a[s] == 0
  {
    var c := 0;
    while c < a.Length
      invariant c <= a.Length && forall s :: 0 <= s < c ==> a[s] == 0
    {
      a[c] := 0;
      c := c + 1;
    }
  }

  method TryRow(r: Recipe, p: Placement, grid: seq<Stack>, gridWidth: nat, gridHeight: nat, y: nat,
                consumption: array<u16>)
    returns (matched: bool)
    requires r.Shaped? && ValidRecipe(r) && gridWidth > 0 && |grid| == gridHeight * gridWidth && y < gridHeight
    requires SoFar(r, p, gridWidth, grid, consumption[..], y * gridWidth)
    modifies consumption
    ensures if matched then SoFar(r, p, gridWidth, grid, consumption[..], (y + 1) * gridWidth)
        else !Fits(r, p, gridWidth, grid)
  {
    var x := 0;
    while x < gridWidth
      invariant x <= gridWidth && SoFar(r, p, gridWidth, grid, consumption[..], y * gridWidth + x)
    {
      NextSlot(r, p, gridWidth, gridHeight, grid, consumption[..], x, y);
      var slot := y * gridWidth + x;
      var ingredient := At(r, p, x, y);
      if !Matches(ingredient, grid[slot]) {
        return false;
      }
      if ingredient.items != [] {
        consumption[slot] := 1;
      }
      x := x + 1;
    }
    assert (y + 1) * gridWidth == y * gridWidth + gridWidth;
    return true;
  }

  /** Every offset, each unmirrored and mirrored. */
  method MatchShaped(r: Recipe, grid: seq<Stack>, gridWidth: nat, gridHeight: nat) returns (c: Option<seq<u16>>)
    requires r.Shaped? && ValidRecipe(r) && gridWidth > 0 && |grid| == gridHeight * gridWidth
    ensures c.Some? <==> ShapedMatches(r, gridWidth, gridHeight, grid)
    ensures c.Some? ==> TakesOneEach(c.value, grid)
  {
    if r.width > gridWidth || r.height > gridHeight {
      return None;
    }
    var consumption := new u16[|grid|];
    var y := 0;
    while y <= gridHeight - r.height
      invariant y <= gridHeight - r.height + 1
      invariant forall p: Placement :: p.y < y && InGrid(r, p, gridWidth, gridHeight) ==> !Fits(r, p, gridWidth, grid)
    {
      var x := 0;
      while x <= gridWidth - r.width
        invariant x <= gridWidth - r.width + 1
        invariant forall p: Placement :: (p.y < y || (p.y == y && p.x < x)) && InGrid(r, p, gridWidth, gridHeight) ==>
          !Fits(r, p, gridWidth, grid)
      {
        var matched := TryPlacement(r, Placement(x, y, false), grid, gridWidth, gridHeight, consumption);
        if !matched {
          matched := TryPlacement(r, Placement(x, y, true), grid, gridWidth, gridHeight, consumption);
        }
        if matched {
          return Some(consumption[..]);
        }
        x := x + 1;
      }
      y := y + 1;
    }
    return None;
  }

  // ---------------------------------------------------------------------------------------
  // Shapeless recipes
  // ---------------------------------------------------------------------------------------

  /** The occupied slots, in order. */
  function Occupied(grid: seq<Stack>): (slots: seq<nat>)
    ensures forall n :: 0 <= n < |slots| ==> slots[n] < |grid| && grid[slots[n]].count != 0
    ensures forall m, n :: 0 <= m < n < |slots| ==> slots[m] < slots[n]
    ensures forall s :: 0 <= s < |grid| && grid[s].count != 0 ==> s in slots
  {
    if grid == [] then []
    else
      var last := |grid| - 1;
      Occupied(grid[..last]) + if grid[last].count != 0 then [last] else []
  }

  /** Slot `slots[n]` gets ingredient `f[n]`, which accepts it; no ingredient is given twice or was used before. */
  ghost predicate IsAssignment(f: seq<nat>, slots: seq<nat>, grid: seq<Stack>, ingredients: seq<Ingredient>,
                               used: seq<bool>)
    requires forall n :: 0 <= n < |slots| ==> slots[n] < |grid|
    requires |used| == |ingredients|
  {
    && |f| == |slots|
    && (forall n :: 0 <= n < |f| ==> f[n] < |ingredients| && !used[f[n]] && Matches(ingredients[f[n]], grid[slots[n]]))
    && forall m, n :: 0 <= m < n < |f| ==> f[m] != f[n]
  }

  ghost predicate Assignable(slots: seq<nat>, grid: seq<Stack>, ingredients: seq<Ingredient>, used: seq<bool>)
    requires forall n :: 0 <= n < |slots| ==> slots[n] < |grid|
    requires |used| == |ingredients|
  {
    exists f :: IsAssignment(f, slots, grid, ingredients, used)
  }

  /** As many occupied slots as ingredients, and a one-to-one assignment between them. */
  ghost predicate ShapelessMatches(r: Recipe, grid: seq<Stack>)
    requires r.Shapeless?
  {
    && |Occupied(grid)| == |r.ingredients|
    && Assignable(Occupied(grid), grid, r.ingredients, seq(|r.ingredients|, _ => false))
  }

  /** What choosing ingredient `k` for the first slot leaves to do. */
  lemma FirstChoice(slots: seq<nat>, grid: seq<Stack>, ingredients: seq<Ingredient>, used: seq<bool>, k: nat)
    requires slots != [] && forall n :: 0 <= n < |slots| ==> slots[n] < |grid|
    requires |used| == |ingredients| && k < |used| && !used[k] && Matches(ingredients[k], grid[slots[0]])
    requires Assignable(slots[1..], grid, ingredients, used[k := true])
    ensures Assignable(slots, grid, ingredients, used)
  {
    var f :| IsAssignment(f, slots[1..], grid, ingredients, used[k := true]);
    assert IsAssignment([k] + f, slots, grid, ingredients, used);
  }

  lemma SomeFirstChoice(slots: seq<nat>, grid: seq<Stack>, ingredients: seq<Ingredient>, used: seq<bool>)
    returns (k: nat)
    requires slots != [] && forall n :: 0 <= n < |slots| ==> slots[n] < |grid|
    requires |used| == |ingredients| && Assignable(slots, grid, ingredients, used)
    ensures k < |used| && !used[k] && Matches(ingredients[k], grid[slots[0]])
    ensures Assignable(slots[1..], grid, ingredients, used[k := true])
  {
    var f :| IsAssignment(f, slots, grid, ingredients, used);
    k := f[0];
    assert IsAssignment(f[1..], slots[1..], grid, ingredients, used[k := true]);
  }

  /** The backtracking search for slots `number` and on.  It succeeds just when an assignment exists, and
      a failed search leaves the two buffers as they were. */
  method Assign(number: nat, occupied: seq<nat>, grid: seq<Stack>, ingredients: seq<Ingredient>,
                used: array<bool>, consumption: array<u16>)
    returns (ok: bool)
    requires number <= |occupied| && used.Length == |ingredients| && consumption.Length == |grid|
    requires forall n :: 0 <= n < |occupied| ==> occupied[n] < |grid|
    requires forall m, n :: 0 <= m < n < |occupied| ==> occupied[m] < occupied[n]
    requires forall n :: number <= n < |occupied| ==> consumption[occupied[n]] == 0
    modifies used, consumption
    ensures ok <==> Assignable(occupied[number..], grid, ingredients, old(used[..]))
    ensures !ok ==> used[..] == old(used[..]) && consumption[..] == old(consumption[..])
    ensures ok ==> forall n :: number <= n < |occupied| ==> consumption[occupied[n]] == 1
    ensures forall s :: 0 <= s < |grid| && s !in occupied[number..] ==> consumption[s] == old(consumption[s])
    decreases |occupied| - number
  {
    var left := occupied[number..];
    if number == |occupied| {
      assert IsAssignment([], left, grid, ingredients, used[..]);
      return true;
    }
    var slot := occupied[number];
    assert left[1..] == occupied[number + 1..];
    ghost var before, was := used[..], consumption[..];
    var k := 0;
    while k < |ingredients|
      invariant k <= |ingredients| && used[..] == before && consumption[..] == was
      invariant forall j :: 0 <= j < k && !before[j] && Matches(ingredients[j], grid[slot]) ==>
        !Assignable(left[1..], grid, ingredients, before[j := true])
    {
      if !used[k] && Matches(ingredients[k], grid[slot]) {
        used[k] := true;
        consumption[slot] := 1;
        assert used[..] == before[k := true];
        ok := Assign(number + 1, occupied, grid, ingredients, used, consumption);
        if ok {
          FirstChoice(left, grid, ingredients, before, k);
          return;
        }
        consumption[slot] := 0;
        used[k] := false;
        assert used[..] == before;
        assert consumption[..] == was;
      }
      k := k + 1;
    }
    if Assignable(left, grid, ingredients, before) {
      var j := SomeFirstChoice(left, grid, ingredients, before);
    }
    return false;
  }

  method ListOccupied(grid: seq<Stack>) returns (occupied: seq<nat>)
    ensures occupied == Occupied(grid)
  {
    occupied := [];
    var index := 0;
    while index < |grid|
      invariant index <= |grid| && occupied == Occupied(grid[..index])
    {
      assert grid[..index + 1][..index] == grid[..index];
      if grid[index].count != 0 {
        occupied := occupied + [index];
      }
      index := index + 1;
    }
    assert grid[..|grid|] == grid;
  }

  method MatchShapeless(r: Recipe, grid: seq<Stack>) returns (c: Option<seq<u16>>)
    requires r.Shapeless?
    ensures c.Some? <==> ShapelessMatches(r, grid)
    ensures c.Some? ==> TakesOneEach(c.value, grid)
  {
    var occupied := ListOccupied(grid);
    if |occupied| != |r.ingredients| {
      return None;
    }
    var used := new bool[|r.ingredients|](_ => false);
    var consumption := new u16[|grid|](_ => 0);
    assert used[..] == seq(|r.ingredients|, _ => false);
    assert occupied[0..] == occupied;
    var ok := Assign(0, occupied, grid, r.ingredients, used, consumption);
    return if ok then Some(consumption[..]) else None;
  }

  // ---------------------------------------------------------------------------------------
  // Both kinds
  // ---------------------------------------------------------------------------------------

  ghost predicate RecipeMatches(r: Recipe, grid: seq<Stack>, gridWidth: nat, gridHeight: nat)
    requires ValidRecipe(r) && gridWidth > 0
  {
    if r.Shaped? then ShapedMatches(r, gridWidth, gridHeight, grid) else ShapelessMatches(r, grid)
  }

  datatype Matched = BadGrid | NoMatch | Match(consumption: seq<u16>)

  predicate GoodGrid(grid: seq<Stack>, gridWidth: nat, gridHeight: nat) {
    gridWidth > 0 && gridHeight > 0 && gridWidth * gridHeight == |grid|
  }

  /** `match`, which throws for a grid of other dimensions. */
  method MatchRecipe(r: Recipe, grid: seq<Stack>, gridWidth: nat, gridHeight: nat) returns (m: Matched)
    requires ValidRecipe(r)
    ensures m.BadGrid? <==> !GoodGrid(grid, gridWidth, gridHeight)
    ensures !m.BadGrid? ==> (m.Match? <==> RecipeMatches(r, grid, gridWidth, gridHeight))
    ensures m.Match? ==> TakesOneEach(m.consumption, grid)
  {
    if gridWidth == 0 || gridHeight == 0 || gridWidth * gridHeight != |grid| {
      return BadGrid;
    }
    var c: Option<seq<u16>>;
    if r.Shaped? {
      c := MatchShaped(r, grid, gridWidth, gridHeight);
    } else {
      c := MatchShapeless(r, grid);
    }
    return if c.Some? then Match(c.value) else NoMatch;
  }
}
