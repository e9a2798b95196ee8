/** Falling blocks: `World::settle_falling_column` on one column of the world.

    The column is an array indexed from the bottom of the build range; entry `i` is the block at
    height `MIN_BUILD_Y + i`. */
module FallingColumn {

  import opened Blocks
  import opened Sequences

  predicate Falls(b: BlockId) {
    b == SAND || b == GRAVEL
  }

  // ---------------------------------------------------------------------------------------
  // What settling means
  // ---------------------------------------------------------------------------------------

  /** Where a block at `i` comes to rest: below it is the bottom or the first block that is not air. */
  function RestingPlace(s: seq<BlockId>, i: nat): (d: nat)
    requires i < |s|
    ensures d <= i && (d > 0 ==> s[d - 1] != AIR)
    ensures d < i ==> s[d] == AIR
  {
    if i == 0 || s[i - 1] != AIR then i
    else
      RestingPlace(s, i - 1)
  }

  /** The block at `i` falls, if it is one that does. */
  function Dropped(s: seq<BlockId>, i: nat): (r: seq<BlockId>)
    requires i < |s|
    ensures |r| == |s|
  {
    if Falls(s[i]) && RestingPlace(s, i) < i then s[i := AIR][RestingPlace(s, i) := s[i]] else s
  }

  /** The blocks from `i` upwards fall in turn. */
  function Settled(s: seq<BlockId>, i: nat): (r: seq<BlockId>)
    requires i <= |s|
    ensures |r| == |s|
    decreases |s| - i
  {
    if i == |s| then s else Settled(Dropped(s, i), i + 1)
  }

  /** The heights reported: source and destination of every fall, in order. */
  function Moves(s: seq<BlockId>, i: nat): seq<int>
    requires i <= |s|
    decreases |s| - i
  {
    if i == |s| then []
    else
      Move(s, i) + Moves(Dropped(s, i), i + 1)
  }

  function Move(s: seq<BlockId>, i: nat): seq<int>
    requires i < |s|
  {
    if Falls(s[i]) && RestingPlace(s, i) < i then [MIN_BUILD_Y + i, MIN_BUILD_Y + RestingPlace(s, i)] else []
  }

  function NonAir(s: seq<BlockId>): seq<BlockId> {
    if s == [] then []
    else if s[0] == AIR then NonAir(s[1..])
    else [s[0]] + NonAir(s[1..])
  }

  /** No sand or gravel at or above `i` has air directly below. */
  ghost predicate Stable(s: seq<BlockId>, i: nat) {
    forall k :: i <= k < |s| && 0 < k && Falls(s[k]) ==> s[k - 1] != AIR
  }

  /** Trading places with the air below changes neither the blocks nor their order. */
  lemma {:induction false} SwapWithAir(s: seq<BlockId>, i: nat)
    requires 0 < i < |s| && s[i - 1] == AIR
    ensures NonAir(s[i - 1 := s[i]][i := AIR]) == NonAir(s)
  {
    var r := s[i - 1 := s[i]][i := AIR];
    if i == 1 {
      assert r[1..][1..] == s[1..][1..];
    } else {
      assert r[1..] == s[1..][i - 2 := s[1..][i - 1]][i - 1 := AIR];
      SwapWithAir(s[1..], i - 1);
    }
  }

  /** A fall is a chain of such trades. */
  lemma {:induction false} FallKeeps(s: seq<BlockId>, i: nat)
    requires i < |s| && s[i] != AIR
    ensures NonAir(s[i := AIR][RestingPlace(s, i) := s[i]]) == NonAir(s)
    decreases i
  {
    var d := RestingPlace(s, i);
    if d == i {
      assert s[i := AIR][d := s[i]] == s;
    } else {
      var s' := s[i - 1 := s[i]][i := AIR];
      SwapWithAir(s, i);
      RestingPlaceLocal(s, s', i - 1);
      FallKeeps(s', i - 1);
      assert s'[i - 1 := AIR] == s[i := AIR];
    }
  }

  lemma {:induction false} RestingPlaceLocal(s: seq<BlockId>, s': seq<BlockId>, i: nat)
    requires i < |s| && i < |s'|
    requires forall k :: 0 <= k < i ==> s[k] == s'[k]
    ensures RestingPlace(s, i) == RestingPlace(s', i)
  {
    if i > 0 && s[i - 1] == AIR {
      RestingPlaceLocal(s, s', i - 1);
    }
  }

  /** The loop, begun at `start` on `before`, has reached `i` with `now` and `reported`. */
  ghost predicate Passed(before: seq<BlockId>, start: nat, now: seq<BlockId>, reported: seq<int>, i: nat) {
    && start <= |before| == |now| && i <= |now|
    && Settled(now, i) == Settled(before, start)
    && reported + Moves(now, i) == Moves(before, start)
  }

  lemma PassedStep(before: seq<BlockId>, start: nat, now: seq<BlockId>, reported: seq<int>, i: nat)
    requires Passed(before, start, now, reported, i) && i < |now|
    ensures Passed(before, start, Dropped(now, i), reported + Move(now, i), i + 1)
  {
    MovesNext(now, i);
    Associative(reported, Move(now, i), Moves(Dropped(now, i), i + 1));
  }

  lemma MovesNext(s: seq<BlockId>, i: nat)
    requires i < |s|
    ensures Moves(s, i) == Move(s, i) + Moves(Dropped(s, i), i + 1)
  {
  }

  lemma DroppedKeeps(s: seq<BlockId>, i: nat)
    requires i < |s|
    ensures NonAir(Dropped(s, i)) == NonAir(s)
    ensures multiset(Dropped(s, i)) == multiset(s)
  {
    if Falls(s[i]) {
      FallKeeps(s, i);
    }
  }

  // ---------------------------------------------------------------------------------------
  // Properties of settling
  // ---------------------------------------------------------------------------------------

  /** Settling keeps the blocks of the column and the vertical order of those that are not air. */
  lemma {:induction false} SettlingKeepsBlocks(s: seq<BlockId>, i: nat)
    requires i <= |s|
    ensures NonAir(Settled(s, i)) == NonAir(s)
    ensures multiset(Settled(s, i)) == multiset(s)
    decreases |s| - i
  {
    if i < |s| {
      DroppedKeeps(s, i);
      SettlingKeepsBlocks(Dropped(s, i), i + 1);
    }
  }

  /** Afterwards nothing at or above the start height hangs in the air. */
  lemma {:induction false} SettlingStabilizes(s: seq<BlockId>, start: nat, i: nat)
    requires 0 < start <= i <= |s|
    requires forall k :: start <= k < i && Falls(s[k]) ==> s[k - 1] != AIR
    ensures Stable(Settled(s, i), start)
    decreases |s| - i
  {
    if i < |s| {
      SettlingStabilizes(Dropped(s, i), start, i + 1);
    }
  }

  /** A stable column stays as it is, and nothing is reported. */
  lemma {:induction false} StableStays(s: seq<BlockId>, i: nat)
    requires 0 < i <= |s| && Stable(s, i)
    ensures Settled(s, i) == s && Moves(s, i) == []
    decreases |s| - i
  {
    if i < |s| {
      StableStays(s, i + 1);
    }
  }

  /** A second run changes nothing and reports nothing. */
  lemma SettlingIsIdempotent(s: seq<BlockId>, i: nat)
    requires 0 < i <= |s|
    ensures Settled(Settled(s, i), i) == Settled(s, i) && Moves(Settled(s, i), i) == []
  {
    SettlingStabilizes(s, i, i);
    StableStays(Settled(s, i), i);
  }

  /** Only sand and gravel at or above the start height leave their place. */
  lemma {:induction false} SettlingMovesOnlyFalling(s: seq<BlockId>, i: nat, k: nat)
    requires i <= |s| && k < |s|
    requires s[k] != AIR && (k < i || !Falls(s[k]))
    ensures Settled(s, i)[k] == s[k]
    decreases |s| - i
  {
    if i < |s| {
      SettlingMovesOnlyFalling(Dropped(s, i), i + 1, k);
    }
  }

  /** Whatever is new at a place has come to rest: below it is a block, or the bottom. */
  lemma {:induction false} FallenRest(s: seq<BlockId>, i: nat, k: nat)
    requires i <= |s| && k < |s| && Settled(s, i)[k] != AIR && Settled(s, i)[k] != s[k]
    ensures k == 0 || Settled(s, i)[k - 1] != AIR
    decreases |s| - i
  {
    var t := Dropped(s, i);
    if t[k] != Settled(t, i + 1)[k] {
      FallenRest(t, i + 1, k);
    } else if k > 0 {
      assert k < i && t[k - 1] != AIR;
      SettlingMovesOnlyFalling(t, i + 1, k - 1);
    }
  }

  /** Pair `j` of the report is a move downwards from `low` or above, and from above the one before. */
  ghost predicate MoveAt(moves: seq<int>, j: nat, low: int, top: int)
    requires 2 * j + 1 < |moves|
  {
    && MIN_BUILD_Y <= moves[2 * j + 1] < moves[2 * j] < top && low <= moves[2 * j]
    && (j > 0 ==> moves[2 * j - 2] < moves[2 * j])
  }

  lemma FirstMove(first: seq<int>, rest: seq<int>, j: nat, low: int, top: int)
    requires |first| == 2 && MIN_BUILD_Y <= first[1] < first[0] == low < top && 2 * j + 1 < |first + rest|
    requires j > 0 ==> MoveAt(rest, j - 1, low + 1, top)
    ensures MoveAt(first + rest, j, low, top)
  {
    assert forall k :: 2 <= k < |first + rest| ==> (first + rest)[k] == rest[k - 2];
  }

  /** What is reported are moves downwards, one after the other, each from a place at or above the start. */
  lemma {:induction false} MovesGoDown(s: seq<BlockId>, i: nat, j: nat)
    requires i <= |s| && 2 * j + 1 < |Moves(s, i)|
    ensures MoveAt(Moves(s, i), j, MIN_BUILD_Y + i, MIN_BUILD_Y + |s|)
    decreases |s| - i
  {
    var first, rest := Move(s, i), Moves(Dropped(s, i), i + 1);
    MovesNext(s, i);
    if first == [] {
      assert Moves(s, i) == rest;
      MovesGoDown(Dropped(s, i), i + 1, j);
    } else {
      if j > 0 {
        MovesGoDown(Dropped(s, i), i + 1, j - 1);
      }
      FirstMove(first, rest, j, MIN_BUILD_Y + i, MIN_BUILD_Y + |s|);
    }
  }

  /** Every height whose block differs is reported. */
  lemma {:induction false} ChangesAreReported(s: seq<BlockId>, i: nat, k: nat)
    requires i <= |s| && k < |s| && Settled(s, i)[k] != s[k]
    ensures MIN_BUILD_Y + k in Moves(s, i)
    decreases |s| - i
  {
    if Dropped(s, i)[k] == s[k] {
      ChangesAreReported(Dropped(s, i), i + 1, k);
    } else {
      MoveReports(s, i, k);
    }
  }

  lemma MoveReports(s: seq<BlockId>, i: nat, k: nat)
    requires i < |s| && k < |s| && Dropped(s, i)[k] != s[k]
    ensures MIN_BUILD_Y + k in Move(s, i)
  {
    assert k == i || k == RestingPlace(s, i);
    assert Move(s, i)[0] == MIN_BUILD_Y + i && Move(s, i)[1] == MIN_BUILD_Y + RestingPlace(s, i);
  }

  // ---------------------------------------------------------------------------------------
  // The program
  // ---------------------------------------------------------------------------------------

  /** The first index looked at for a call at height `y`; a height above the build range looks nowhere. */
  function StartIndex(y: int): nat {
    if y <= MIN_BUILD_Y then 1 else if y > MAX_BUILD_Y then HEIGHT else y - MIN_BUILD_Y
  }

  method SettleFallingColumn(column: array<BlockId>, height: int) returns (changed: seq<int>)
    requires column.Length == HEIGHT
    modifies column
    ensures column[..] == Settled(old(column[..]), StartIndex(height))
    ensures changed == Moves(old(column[..]), StartIndex(height))
    // from the height on, or the second lowest block, nothing hangs in the air, and what lies below stays
    ensures forall k :: 0 < k < HEIGHT && MIN_BUILD_Y + k >= height && Falls(column[k]) ==> column[k - 1] != AIR
    ensures forall k :: 0 <= k < HEIGHT && (MIN_BUILD_Y + k < height || k == 0) && old(column[k]) != AIR ==>
      column[k] == old(column[k])
  {
    HeightsSettled(column[..], height);
    changed := Settle(column, height);
  }

  method Settle(column: array<BlockId>, height: int) returns (changed: seq<int>)
    requires column.Length == HEIGHT
    modifies column
    ensures column[..] == Settled(old(column[..]), StartIndex(height))
    ensures changed == Moves(old(column[..]), StartIndex(height))
  {
    changed := [];
    var y := if height < MIN_BUILD_Y + 1 then MIN_BUILD_Y + 1 else height;
    if y >= MAX_BUILD_Y {
      return;
    }
    ghost var before, start := column[..], StartIndex(height);
    while y < MAX_BUILD_Y
      invariant MIN_BUILD_Y + start <= y <= MAX_BUILD_Y
      invariant Passed(before, start, column[..], changed, y - MIN_BUILD_Y)
    {
      PassedStep(before, start, column[..], changed, y - MIN_BUILD_Y);
      var moved := Fall(column, y - MIN_BUILD_Y);
      changed := changed + moved;
      y := y + 1;
    }
  }

  /** What settling means in heights. */
  lemma HeightsSettled(s: seq<BlockId>, height: int)
    requires |s| == HEIGHT
    ensures
      var t := Settled(s, StartIndex(height));
      && (forall k :: 0 < k < HEIGHT && MIN_BUILD_Y + k >= height && Falls(t[k]) ==> t[k - 1] != AIR)
      && (forall k :: 0 <= k < HEIGHT && (MIN_BUILD_Y + k < height || k == 0) && s[k] != AIR ==> t[k] == s[k])
  {
    var start := StartIndex(height);
    SettlingStabilizes(s, start, start);
    forall k | 0 <= k < HEIGHT && (MIN_BUILD_Y + k < height || k == 0) && s[k] != AIR
      ensures Settled(s, start)[k] == s[k]
    {
      SettlingMovesOnlyFalling(s, start, k);
    }
  }

  /** The body of the loop: the block at `source` falls if it does; both heights are reported. */
  method Fall(column: array<BlockId>, source: nat) returns (moved: seq<int>)
    requires source < column.Length
    modifies column
    ensures column[..] == Dropped(old(column[..]), source)
    ensures moved == Move(old(column[..]), source)
  {
    var block := column[source];
    if !Falls(block) {
      return [];
    }
    var destination := source;
    while destination > 0 && column[destination - 1] == AIR
      invariant 0 <= destination <= source
      invariant RestingPlace(column[..], source) == RestingPlace(column[..], destination)
    {
      destination := destination - 1;
    }
    if destination == source {
      return [];
    }
    column[source] := AIR;
    column[destination] := block;
    moved := [MIN_BUILD_Y + source, MIN_BUILD_Y + destination];
  }
}
