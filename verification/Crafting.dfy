/** Crafting (src/inventory/inventory.cpp): the first recipe that matches the grid is carried out whole or
    not at all. */
module Crafting {
  import Containers
  import Items
  import opened Recipes

  type Container = Containers.Container

  predicate UniqueIds(recipes: seq<Recipe>) {
    forall m, n :: 0 <= m < n < |recipes| ==> recipes[m].id != recipes[n].id
  }

  /** Recipe `n` is the first that matches. */
  ghost predicate FirstMatch(recipes: seq<Recipe>, n: nat, grid: seq<Stack>, gridWidth: nat, gridHeight: nat)
    requires gridWidth > 0 && forall i :: 0 <= i < |recipes| ==> ValidRecipe(recipes[i])
  {
    && n < |recipes| && RecipeMatches(recipes[n], grid, gridWidth, gridHeight)
    && forall i :: 0 <= i < n ==> !RecipeMatches(recipes[i], grid, gridWidth, gridHeight)
  }

  /** The grid with one item gone from each occupied slot. */
  function Consumed(grid: seq<Stack>): seq<Stack> {
    seq(|grid|, s requires 0 <= s < |grid| => Items.Take(grid[s], 1).1)
  }

  /** Recipe `n` is the one to craft: the first that matches, and its result has room in the output. */
  ghost predicate Craftable(recipes: seq<Recipe>, grid: seq<Stack>, gridWidth: nat, gridHeight: nat,
                            output: seq<Stack>, accepts: Containers.Validator, items: Containers.Registry, n: nat)
    requires gridWidth > 0 && forall i :: 0 <= i < |recipes| ==>
        ValidRecipe(recipes[i]) && Items.Valid(recipes[i].result, items)
  {
    && FirstMatch(recipes, n, grid, gridWidth, gridHeight)
    && recipes[n].result.kind.item < |items|
    && recipes[n].result.count as nat <= Containers.Room(output, accepts, recipes[n].result.kind, items)
  }

  /** The output holds the whole result on top of what it held, poured in order. */
  ghost predicate Received(was: seq<Stack>, now: seq<Stack>, accepts: Containers.Validator, result: Stack,
                           items: Containers.Registry)
    requires Items.Valid(result, items) && result.count != 0
  {
    && Containers.PouredInOrder(was, now, accepts, result.kind, items)
    && forall k :: Containers.Total(now, k) == Containers.Total(was, k) + Items.CountOf(result, k)
  }

  lemma OnlyFirstMatch(recipes: seq<Recipe>, grid: seq<Stack>, gridWidth: nat, gridHeight: nat, n: nat)
    requires gridWidth > 0 && forall i :: 0 <= i < |recipes| ==> ValidRecipe(recipes[i])
    requires FirstMatch(recipes, n, grid, gridWidth, gridHeight)
    ensures forall m: nat :: FirstMatch(recipes, m, grid, gridWidth, gridHeight) ==> m == n
  {
  }

  /** Consuming makes nothing. */
  lemma {:induction false} ConsumedTotal(grid: seq<Stack>, k: Items.Kind)
    ensures Containers.Total(Consumed(grid), k) <= Containers.Total(grid, k)
  {
    if grid != [] {
      var last := |grid| - 1;
      ConsumedTotal(grid[..last], k);
      assert Consumed(grid)[..last] == Consumed(grid[..last]);
    }
  }

  /** What has received a result is not what was consumed from. */
  lemma ReceivedIsNotConsumed(was: seq<Stack>, now: seq<Stack>, accepts: Containers.Validator, result: Stack,
                              items: Containers.Registry)
    requires Items.Valid(result, items) && result.count != 0 && Received(was, now, accepts, result, items)
    ensures now != Consumed(was)
  {
    ConsumedTotal(was, result.kind);
  }

  datatype Found = BadDimensions | Nothing | Recipe(index: nat, consumption: seq<u16>)

  datatype Crafted = Thrown | Refused | Done

  class CraftingManager {
    const items: Containers.Registry
    var recipes: seq<Recipe>

    ghost predicate Valid()
      reads this
    {
      && UniqueIds(recipes)
      && forall i :: 0 <= i < |recipes| ==> ValidRecipe(recipes[i]) && Items.Valid(recipes[i].result, items)
    }

    constructor (items: Containers.Registry)
      ensures Valid() && this.items == items && recipes == []
    {
      this.items := items;
      recipes := [];
    }

    method Register(r: Recipe) returns (ok: bool)
      requires Valid() && ValidRecipe(r)
      modifies this
      ensures Valid()
      ensures ok <==> Items.Valid(r.result, items) && forall i :: 0 <= i < |old(recipes)| ==> old(recipes)[i].id != r.id
      ensures recipes == old(recipes) + if ok then [r] else []
    {
      if !Items.Valid(r.result, items) {
        return false;
      }
      var i := 0;
      while i < |recipes|
        invariant recipes == old(recipes) && i <= |recipes|
        invariant forall j :: 0 <= j < i ==> recipes[j].id != r.id
      {
        if recipes[i].id == r.id {
          return false;
        }
        i := i + 1;
      }
      recipes := recipes + [r];
      return true;
    }

    /** The first recipe that matches the grid; the dimensions are only looked at by a recipe. */
    method FindMatch(grid: seq<Stack>, gridWidth: nat, gridHeight: nat) returns (f: Found)
      requires Valid()
      ensures f.BadDimensions? <==> recipes != [] && !GoodGrid(grid, gridWidth, gridHeight)
      ensures f.Recipe? ==>
        && gridWidth > 0 && FirstMatch(recipes, f.index, grid, gridWidth, gridHeight)
        && TakesOneEach(f.consumption, grid)
      ensures f.Nothing? && gridWidth > 0 ==>
        forall i :: 0 <= i < |recipes| ==> !RecipeMatches(recipes[i], grid, gridWidth, gridHeight)
    {
      var i := 0;
      while i < |recipes|
        invariant i <= |recipes| && (i > 0 ==> GoodGrid(grid, gridWidth, gridHeight))
        invariant gridWidth > 0 ==> forall j :: 0 <= j < i ==> !RecipeMatches(recipes[j], grid, gridWidth, gridHeight)
      {
        var m := MatchRecipe(recipes[i], grid, gridWidth, gridHeight);
        match m {
          case BadGrid => return BadDimensions;
          case Match(consumption) => return Recipe(i, consumption);
          case NoMatch =>
        }
        i := i + 1;
      }
      return Nothing;
    }

    /** Takes the consumption out of a copy of the grid. */
    method ConsumeFrom(grid: Container, consumption: seq<u16>) returns (copy: Container)
      requires grid.Valid() && TakesOneEach(consumption, grid.slots)
      ensures fresh(copy) && copy.Valid() && copy.items == grid.items && copy.accepts == grid.accepts
      ensures copy.slots == Consumed(grid.slots) && grid.slots == old(grid.slots) && grid.stateId == old(grid.stateId)
    {
      copy := new Containers.Container.Copy(grid);
      ghost var was := grid.slots;
      var index := 0;
      while index < |consumption|
        invariant index <= |consumption| == |was| == |copy.slots| && copy.Valid() && was == grid.slots
        invariant forall s :: 0 <= s < index ==> copy.slots[s] == Items.Take(was[s], 1).1
        invariant forall s :: index <= s < |was| ==> copy.slots[s] == was[s]
        modifies copy
      {
        assert Containers.Holds(was[index], index, grid.accepts, grid.items);
        if consumption[index] != 0 {
          var removed := copy.Take(index, consumption[index]);
          // As many items come out as were asked for, so crafting is never abandoned here.
          assert removed.Some? && removed.value.count == consumption[index];
        }
        index := index + 1;
      }
      assert copy.slots == Consumed(was);
    }

    /** Inserts the result into a copy of the output; it fits when nothing is left over. */
    method ProduceInto(output: Container, result: Stack) returns (copy: Container, fits: bool)
      requires output.Valid() && Items.Valid(result, output.items) && result.count != 0
      ensures fresh(copy) && copy.Valid() && copy.items == output.items && copy.accepts == output.accepts
      ensures fits <==> result.count as nat <= Containers.Room(output.slots, output.accepts, result.kind, output.items)
      ensures fits ==> Received(output.slots, copy.slots, output.accepts, result, output.items)
      ensures fits ==> copy.stateId == output.stateId + 1
    {
      copy := new Containers.Container.Copy(output);
      var rest := copy.Insert(result);
      fits := rest.Some? && rest.value.count == 0;
    }

    /** `craft_once` up to the final moves: the outcome on copies. */
    method CraftOnCopies(grid: Container, gridWidth: nat, gridHeight: nat, output: Container)
      returns (r: Crafted, gridCopy: Container, outputCopy: Container, ghost n: nat)
      requires Valid() && grid.Valid() && output.Valid() && output.items == items
      ensures r.Thrown? <==> recipes != [] && !GoodGrid(grid.slots, gridWidth, gridHeight)
      ensures r.Refused? && gridWidth > 0 ==>
        forall m: nat :: !Craftable(recipes, grid.slots, gridWidth, gridHeight, output.slots, output.accepts, items, m)
      ensures r.Done? ==>
        && gridWidth > 0 && Craftable(recipes, grid.slots, gridWidth, gridHeight, output.slots, output.accepts,
                                      items, n)
        && fresh(gridCopy) && gridCopy.Valid() && gridCopy.slots == Consumed(grid.slots)
        && fresh(outputCopy) && outputCopy.Valid() && outputCopy.items == items && outputCopy.accepts == output.accepts
        && outputCopy.stateId == output.stateId + 1
        && Received(output.slots, outputCopy.slots, output.accepts, recipes[n].result, items)
      ensures gridCopy.items == grid.items && gridCopy.accepts == grid.accepts
    {
      gridCopy, outputCopy, n := grid, output, 0;
      var found := FindMatch(grid.slots, gridWidth, gridHeight);
      if found.BadDimensions? {
        r := Thrown;
        return;
      }
      if found.Nothing? {
        r := Refused;
        return;
      }
      n := found.index;
      var result := recipes[found.index].result;
      gridCopy := ConsumeFrom(grid, found.consumption);
      var fits;
      outputCopy, fits := ProduceInto(output, result);
      if !fits {
        r := Refused;
        OnlyFirstMatch(recipes, grid.slots, gridWidth, gridHeight, n);
        return;
      }
      r := Done;
    }

    /** `craft_once`.  When grid and output are one container, the second move overwrites the first. */
    method CraftOnce(grid: Container, gridWidth: nat, gridHeight: nat, output: Container)
      returns (r: Crafted, ghost n: nat)
      requires Valid() && grid.Valid() && output.Valid() && output.items == items
      modifies grid, output
      ensures Valid() && grid.Valid() && output.Valid()
      ensures r.Thrown? <==> recipes != [] && !GoodGrid(old(grid.slots), gridWidth, gridHeight)
      ensures !r.Done? ==>
        && grid.slots == old(grid.slots) && grid.stateId == old(grid.stateId)
        && output.slots == old(output.slots) && output.stateId == old(output.stateId)
      ensures r.Refused? && gridWidth > 0 ==>
        forall m: nat :: !Craftable(recipes, old(grid.slots), gridWidth, gridHeight, old(output.slots),
                                    output.accepts, items, m)
      ensures r.Done? ==>
        && gridWidth > 0 && Craftable(recipes, old(grid.slots), gridWidth, gridHeight, old(output.slots),
                                      output.accepts, items, n)
        && (grid.slots == Consumed(old(grid.slots)) <==> grid != output)
        && Received(old(output.slots), output.slots, output.accepts, recipes[n].result, items)
        && output.stateId == old(output.stateId) + 1
    {
      var gridCopy, outputCopy;
      r, gridCopy, outputCopy, n := CraftOnCopies(grid, gridWidth, gridHeight, output);
      if r.Done? {
        grid.slots, grid.stateId := gridCopy.slots, gridCopy.stateId;
        output.slots, output.stateId := outputCopy.slots, outputCopy.stateId;
        ReceivedIsNotConsumed(old(output.slots), output.slots, output.accepts, recipes[n].result, items);
      }
    }
  }
}
