/** Containers of item stacks (src/inventory/inventory.cpp): pouring a stack in, taking from a slot, and
    the optimistic transaction. */
module Containers {
  import Items
  import opened Wrappers

  type Stack = Items.Stack
  type Kind = Items.Kind
  type Registry = Items.Registry
  type u16 = Items.u16

  /** Which kinds a slot takes; the slot validator. */
  type Validator = (nat, Kind) -> bool

  /** The items of one kind in a row of slots. */
  ghost function Total(slots: seq<Stack>, k: Kind): nat {
    if slots == [] then 0 else Total(slots[..|slots| - 1], k) + Items.CountOf(slots[|slots| - 1], k)
  }

  /** How many more items of a kind the slots that accept it can hold. */
  function Room(slots: seq<Stack>, accepts: Validator, k: Kind, items: Registry): nat
    requires k.item < |items|
  {
    if slots == [] then 0
    else
      var last := |slots| - 1;
      Room(slots[..last], accepts, k, items) + if accepts(last, k) then Items.Space(slots[last], k, items) else 0
  }

  lemma {:induction false} TotalUpdate(slots: seq<Stack>, i: nat, v: Stack, k: Kind)
    requires i < |slots|
    ensures Total(slots[i := v], k) + Items.CountOf(slots[i], k) == Total(slots, k) + Items.CountOf(v, k)
  {
    var last := |slots| - 1;
    if i < last {
      TotalUpdate(slots[..last], i, v, k);
      assert slots[i := v][..last] == slots[..last][i := v];
    } else {
      assert slots[i := v][..last] == slots[..last];
    }
  }

  lemma {:induction false} RoomUpdate(slots: seq<Stack>, accepts: Validator, i: nat, v: Stack, k: Kind, items: Registry)
    requires i < |slots| && k.item < |items| && accepts(i, k)
    ensures Room(slots[i := v], accepts, k, items) + Items.Space(slots[i], k, items) ==
            Room(slots, accepts, k, items) + Items.Space(v, k, items)
  {
    var last := |slots| - 1;
    if i < last {
      RoomUpdate(slots[..last], accepts, i, v, k, items);
      assert slots[i := v][..last] == slots[..last][i := v];
    } else {
      assert slots[i := v][..last] == slots[..last];
    }
  }

  lemma {:induction false} NoRoom(slots: seq<Stack>, accepts: Validator, k: Kind, items: Registry)
    requires k.item < |items|
    ensures Room(slots, accepts, k, items) == 0 <==>
            forall i :: 0 <= i < |slots| && accepts(i, k) ==> Items.Space(slots[i], k, items) == 0
  {
    if slots != [] {
      var last := |slots| - 1;
      NoRoom(slots[..last], accepts, k, items);
      assert forall i :: 0 <= i < last ==> slots[..last][i] == slots[i];
    }
  }

  ghost predicate AllValid(slots: seq<Stack>, accepts: Validator, items: Registry) {
    forall i :: 0 <= i < |slots| ==> Holds(slots[i], i, accepts, items)
  }

  /** What a slot may hold. */
  ghost predicate Holds(s: Stack, i: nat, accepts: Validator, items: Registry) {
    Items.Valid(s, items) && (s.count != 0 ==> accepts(i, s.kind))
  }

  // ---------------------------------------------------------------------------------------
  // Pouring a stack into the slots
  // ---------------------------------------------------------------------------------------

  /** A slot that already holds the kind, and one that is free for it. */
  predicate Partial(slots: seq<Stack>, i: nat, accepts: Validator, k: Kind)
    requires i < |slots|
  {
    accepts(i, k) && slots[i].count != 0 && slots[i].kind == k
  }

  predicate Free(slots: seq<Stack>, i: nat, accepts: Validator, k: Kind)
    requires i < |slots|
  {
    accepts(i, k) && slots[i].count == 0
  }

  /** Slot `i` is filled before slot `j`: slots that hold the kind come first, then free ones, each in order. */
  predicate Before(slots: seq<Stack>, i: nat, j: nat, accepts: Validator, k: Kind)
    requires i < |slots| && j < |slots|
  {
    || (Partial(slots, i, accepts, k) && (slots[j].count == 0 || i < j))
    || (Free(slots, i, accepts, k) && slots[j].count == 0 && i < j)
  }

  /** One slot after items of kind `k` were poured in: as it was, or fuller. */
  ghost predicate Fuller(was: seq<Stack>, now: seq<Stack>, j: nat, accepts: Validator, k: Kind)
    requires |was| == |now| && j < |was|
  {
    || now[j] == was[j]
    || ((Partial(was, j, accepts, k) || Free(was, j, accepts, k)) && now[j].kind == k && now[j].count > was[j].count)
  }

  ghost predicate IsFull(s: Stack, k: Kind, items: Registry)
    requires k.item < |items|
  {
    s == Items.Stack(k, items[k.item].maxStack)
  }

  /** Only slots meant for the kind changed, and each only once those before it were full. */
  ghost predicate PouredInOrder(was: seq<Stack>, now: seq<Stack>, accepts: Validator, k: Kind, items: Registry)
    requires k.item < |items|
  {
    && |now| == |was|
    && (forall j :: 0 <= j < |was| ==> Fuller(was, now, j, accepts, k))
    && (forall i, j :: 0 <= i < |was| && 0 <= j < |was| && now[j] != was[j] && Before(was, i, j, accepts, k) ==>
          IsFull(now[i], k, items))
  }

  /** The state between two visits: slots before `merged` that hold the kind, and free ones before `filled`,
      are full, and all others are as they were. */
  ghost predicate Visited(was: seq<Stack>, now: seq<Stack>, merged: nat, filled: nat, accepts: Validator, k: Kind,
                          items: Registry)
    requires k.item < |items|
  {
    && |now| == |was| && merged <= |was| && filled <= |was| && (filled > 0 ==> merged == |was|)
    && forall j :: 0 <= j < |was| ==>
      if (j < merged && Partial(was, j, accepts, k)) || (j < filled && Free(was, j, accepts, k))
      then IsFull(now[j], k, items) else now[j] == was[j]
  }

  /** What is conserved while `poured`, of one kind, goes into the slots and `left` is still in hand. */
  ghost predicate Conserves(was: seq<Stack>, poured: Stack, now: seq<Stack>, left: Stack, accepts: Validator,
                            items: Registry)
    requires poured.kind.item < |items|
  {
    && (left.count != 0 ==> left.kind == poured.kind)
    && (forall k :: Total(now, k) + Items.CountOf(left, k) == Total(was, k) + Items.CountOf(poured, k))
    && left.count as int - Room(now, accepts, poured.kind, items) ==
        poured.count as int - Room(was, accepts, poured.kind, items)
    && left.count <= poured.count
    && (left.count == poured.count ==> now == was)
  }

  /** Pouring into one slot that is meant for the kind. */
  lemma PourInto(was: seq<Stack>, poured: Stack, now: seq<Stack>, left: Stack, i: nat, accepts: Validator,
                 items: Registry)
    requires Items.ValidRegistry(items) && AllValid(now, accepts, items) && Items.Valid(left, items) && left.count != 0
    requires poured.kind.item < |items| && Conserves(was, poured, now, left, accepts, items)
    requires i < |now| && (Partial(now, i, accepts, poured.kind) || Free(now, i, accepts, poured.kind))
    ensures
      var r := Items.InsertFrom(now[i], left, items);
      && AllValid(now[i := r.target], accepts, items) && Items.Valid(r.source, items)
      && Conserves(was, poured, now[i := r.target], r.source, accepts, items)
      && (r.source.count != 0 ==> IsFull(r.target, poured.kind, items))
      && (r.target == now[i] || (r.target.kind == poured.kind && r.target.count > now[i].count))
  {
    assert Holds(now[i], i, accepts, items);
    Items.InsertFromMoves(now[i], left, items);
    var r := Items.InsertFrom(now[i], left, items);
    RoomUpdate(now, accepts, i, r.target, poured.kind, items);
    forall k
      ensures Total(now[i := r.target], k) + Items.CountOf(r.source, k) == Total(was, k) + Items.CountOf(poured, k)
    {
      TotalUpdate(now, i, r.target, k);
    }
  }

  /** Passing a slot: it took what it could and items are left, or it is not one to fill now. */
  lemma VisitNext(was: seq<Stack>, now: seq<Stack>, merged: nat, filled: nat, t: Stack, accepts: Validator, k: Kind,
                  items: Registry)
    requires k.item < |items| && Visited(was, now, merged, filled, accepts, k, items)
    ensures merged < |was| && (if Partial(was, merged, accepts, k) then IsFull(t, k, items) else t == now[merged]) ==>
              Visited(was, now[merged := t], merged + 1, filled, accepts, k, items)
    ensures merged == |was| && filled < |was| &&
            (if Free(was, filled, accepts, k) then IsFull(t, k, items) else t == now[filled]) ==>
              Visited(was, now[filled := t], merged, filled + 1, accepts, k, items)
  {
  }

  lemma VisitedInOrder(was: seq<Stack>, now: seq<Stack>, merged: nat, filled: nat, accepts: Validator, k: Kind,
                       items: Registry)
    requires k.item < |items| && Items.ValidRegistry(items) && AllValid(was, accepts, items)
    requires Visited(was, now, merged, filled, accepts, k, items)
    ensures PouredInOrder(was, now, accepts, k, items)
  {
    assert forall j :: 0 <= j < |was| ==> Holds(was[j], j, accepts, items);
    forall j | 0 <= j < |was| ensures Fuller(was, now, j, accepts, k) {
      assert Holds(was[j], j, accepts, items);
    }
  }

  /** The slot at which the stack ran out is the last one filled. */
  lemma LastInOrder(was: seq<Stack>, now: seq<Stack>, merged: nat, filled: nat, t: Stack, accepts: Validator,
                    k: Kind, items: Registry)
    requires k.item < |items| && Items.ValidRegistry(items) && AllValid(was, accepts, items)
    requires Visited(was, now, merged, filled, accepts, k, items)
    ensures
      var i := if merged < |was| then merged else filled;
      i < |was| && (if merged < |was| then Partial(was, i, accepts, k) else Free(was, i, accepts, k)) &&
      (t == was[i] || (t.kind == k && t.count > was[i].count)) ==>
        PouredInOrder(was, now[i := t], accepts, k, items)
  {
    VisitedInOrder(was, now, merged, filled, accepts, k, items);
    var i := if merged < |was| then merged else filled;
    if i < |was| && (if merged < |was| then Partial(was, i, accepts, k) else Free(was, i, accepts, k)) &&
       (t == was[i] || (t.kind == k && t.count > was[i].count)) {
      assert now[i] == was[i];
      var next := now[i := t];
      forall j | 0 <= j < |was| ensures Fuller(was, next, j, accepts, k) {
        assert Fuller(was, now, j, accepts, k);
      }
      forall a, b | 0 <= a < |was| && 0 <= b < |was| && next[b] != was[b] && Before(was, a, b, accepts, k)
        ensures IsFull(next[a], k, items)
      {
        assert b != i ==> now[b] != was[b];
      }
    }
  }

  /** Items are left after every slot was visited just when there was too little room. */
  lemma AllVisited(was: seq<Stack>, poured: Stack, now: seq<Stack>, left: Stack, accepts: Validator, items: Registry)
    requires poured.kind.item < |items| && Items.ValidRegistry(items) && AllValid(was, accepts, items)
    requires Visited(was, now, |was|, |was|, accepts, poured.kind, items) &&
        Conserves(was, poured, now, left, accepts, items)
    ensures Room(now, accepts, poured.kind, items) == 0
  {
    forall i | 0 <= i < |now| && accepts(i, poured.kind)
      ensures Items.Space(now[i], poured.kind, items) == 0
    {
      assert Holds(was[i], i, accepts, items);
    }
    NoRoom(now, accepts, poured.kind, items);
  }

  /** Between two visits of the pour, with items left. */
  ghost predicate Pouring(was: seq<Stack>, poured: Stack, now: seq<Stack>, left: Stack, merged: nat, filled: nat,
                          accepts: Validator, items: Registry) {
    && Items.ValidRegistry(items) && AllValid(was, accepts, items) && AllValid(now, accepts, items)
    && Items.Valid(left, items) && left.count != 0 && poured.kind.item < |items|
    && Conserves(was, poured, now, left, accepts, items)
    && Visited(was, now, merged, filled, accepts, poured.kind, items)
  }

  /** After a pass: nothing is left, or the pass went over all slots. */
  ghost predicate Poured(was: seq<Stack>, poured: Stack, now: seq<Stack>, left: Stack, filled: nat,
                         accepts: Validator, items: Registry) {
    poured.kind.item < |items| &&
    if left.count == 0 then
      && AllValid(now, accepts, items) && Conserves(was, poured, now, left, accepts, items) && left == Items.EMPTY
      && PouredInOrder(was, now, accepts, poured.kind, items)
    else Pouring(was, poured, now, left, |was|, filled, accepts, items)
  }

  lemma Passed(was: seq<Stack>, poured: Stack, now: seq<Stack>, left: Stack, merged: nat, filled: nat,
               accepts: Validator, items: Registry)
    requires Pouring(was, poured, now, left, merged, filled, accepts, items)
    ensures merged < |was| && !Partial(now, merged, accepts, poured.kind) ==>
              Pouring(was, poured, now, left, merged + 1, filled, accepts, items)
    ensures merged == |was| && filled < |was| && !Free(now, filled, accepts, poured.kind) ==>
              Pouring(was, poured, now, left, merged, filled + 1, accepts, items)
  {
    var i := if merged < |was| then merged else filled;
    if i < |was| {
      assert now[i := now[i]] == now;
      VisitNext(was, now, merged, filled, now[i], accepts, poured.kind, items);
    }
  }

  /** What one visit that pours leaves: the stack ran out in order, or the pour goes on. */
  lemma Visit(was: seq<Stack>, poured: Stack, now: seq<Stack>, left: Stack, merged: nat, filled: nat,
              accepts: Validator, items: Registry)
    requires Pouring(was, poured, now, left, merged, filled, accepts, items)
    requires if merged < |was| then Partial(now, merged, accepts, poured.kind)
        else filled < |was| && Free(now, filled, accepts, poured.kind)
    ensures
      var i := if merged < |was| then merged else filled;
      var r := Items.InsertFrom(now[i], left, items);
      var next := now[i := r.target];
      if r.source.count == 0 then
        AllValid(next, accepts, items) && Conserves(was, poured, next, r.source, accepts, items) &&
            r.source == Items.EMPTY &&
        PouredInOrder(was, next, accepts, poured.kind, items)
      else
        Pouring(was, poured, next, r.source, if merged < |was| then merged + 1 else merged,
                if merged < |was| then filled else filled + 1, accepts, items)
  {
    var i := if merged < |was| then merged else filled;
    var t := Items.InsertFrom(now[i], left, items).target;
    PourInto(was, poured, now, left, i, accepts, items);
    LastInOrder(was, now, merged, filled, t, accepts, poured.kind, items);
    VisitNext(was, now, merged, filled, t, accepts, poured.kind, items);
  }

  datatype Change = Change(index: nat, stack: Stack)

  predicate Allowed(c: Change, slotCount: nat, accepts: Validator, items: Registry) {
    c.index < slotCount && Items.Valid(c.stack, items) && accepts(c.index, c.stack.kind)
  }

  /** The last change to slot `i`. */
  ghost predicate LastTo(changes: seq<Change>, c: nat, i: nat) {
    c < |changes| && changes[c].index == i && forall d :: c < d < |changes| ==> changes[d].index != i
  }

  /** A slot holds what the last change to it says, and what it held if no change names it. */
  ghost predicate Amended(was: seq<Stack>, now: seq<Stack>, changes: seq<Change>) {
    && |now| == |was|
    && (forall i: nat, c: nat {:trigger LastTo(changes, c, i)} :: 0 <= i < |was| && LastTo(changes, c, i) ==>
        now[i] == changes[c].stack)
    && (forall i :: 0 <= i < |was| && (forall c :: 0 <= c < |changes| ==> changes[c].index != i) ==> now[i] == was[i])
  }

  lemma AmendedStep(was: seq<Stack>, now: seq<Stack>, changes: seq<Change>, c: nat)
    requires c < |changes| && changes[c].index < |was| && Amended(was, now, changes[..c])
    ensures Amended(was, now[changes[c].index := changes[c].stack], changes[..c + 1])
  {
    var before, after := changes[..c], changes[..c + 1];
    var next := now[changes[c].index := changes[c].stack];
    forall i: nat, d: nat {:trigger LastTo(after, d, i)} | 0 <= i < |was| && LastTo(after, d, i)
      ensures next[i] == after[d].stack
    {
      if d < c {
        assert changes[c].index != i by { assert after[c].index != i; }
        assert LastTo(before, d, i) by {
          assert forall e :: d < e < c ==> before[e] == after[e];
        }
      } else {
        assert after[d] == changes[c];
      }
    }
    forall i | 0 <= i < |was| && forall d :: 0 <= d < |after| ==> after[d].index != i
      ensures next[i] == was[i]
    {
      assert after[c].index != i;
      assert forall d :: 0 <= d < c ==> before[d] == after[d];
    }
  }

  class Container {
    const items: Registry
    const accepts: Validator
    var slots: seq<Stack>
    var stateId: nat

    ghost predicate Valid()
      reads this
    {
      slots != [] && Items.ValidRegistry(items) && AllValid(slots, accepts, items)
    }

    constructor (items: Registry, slotCount: nat, accepts: Validator)
      requires slotCount > 0 && Items.ValidRegistry(items)
      ensures Valid() && this.items == items && this.accepts == accepts && stateId == 0
      ensures slots == seq(slotCount, _ => Items.EMPTY)
    {
      this.items, this.accepts := items, accepts;
      slots := seq(slotCount, _ => Items.EMPTY);
      stateId := 0;
    }

    constructor Copy(other: Container)
      requires other.Valid()
      ensures Valid() && items == other.items && accepts == other.accepts
      ensures slots == other.slots && stateId == other.stateId
    {
      items, accepts := other.items, other.accepts;
      slots, stateId := other.slots, other.stateId;
    }

    /** Pours a stack in and returns what is left of it; none for a stack that is not valid. */
    method Insert(stack: Stack) returns (r: Option<Stack>)
      requires Valid()
      modifies this
      ensures Valid()
      ensures r.None? <==> !Items.Valid(stack, items)
      ensures r.None? ==> slots == old(slots)
      ensures r.Some? ==> forall k ::
          Total(slots, k) + Items.CountOf(r.value, k) == Total(old(slots), k) + Items.CountOf(stack, k)
      ensures r.Some? && stack.count != 0 ==>
        var room := Room(old(slots), accepts, stack.kind, items);
        && r.value == Items.Normalized(Items.Stack(stack.kind, if stack.count as nat <= room then 0
                                                   else (stack.count as nat - room) as u16))
        && PouredInOrder(old(slots), slots, accepts, stack.kind, items)
      ensures stateId == old(stateId) + if slots == old(slots) then 0 else 1
      ensures r.Some? ==> (slots == old(slots) <==> r.value.count == stack.count)
    {
      if !Items.Valid(stack, items) {
        return None;
      }
      if stack.count == 0 {
        return Some(stack);
      }
      ghost var was := slots;
      var left := MergeAll(stack);
      if left.count != 0 {
        left := FillFree(stack, left, was);
      }
      if left.count != 0 {
        AllVisited(was, stack, slots, left, accepts, items);
        VisitedInOrder(was, slots, |slots|, |slots|, accepts, stack.kind, items);
      }
      if left.count != stack.count {
        stateId := stateId + 1;
      }
      return Some(left);
    }

    /** First pass: slots that hold the kind. */
    method MergeAll(stack: Stack) returns (left: Stack)
      requires Valid() && Items.Valid(stack, items) && stack.count != 0
      modifies this`slots
      ensures |slots| == |old(slots)| && Poured(old(slots), stack, slots, left, 0, accepts, items)
    {
      left := stack;
      var i := 0;
      while i < |slots|
        invariant i <= |old(slots)| == |slots| && Pouring(old(slots), stack, slots, left, i, 0, accepts, items)
      {
        if accepts(i, left.kind) && Items.CanMerge(slots[i], left) {
          left := PourAt(i, left, old(slots), stack, i, 0);
          if left.count == 0 {
            return;
          }
        } else {
          Passed(old(slots), stack, slots, left, i, 0, accepts, items);
        }
        i := i + 1;
      }
    }

    /** Second pass: free slots. */
    method FillFree(stack: Stack, still: Stack, ghost was: seq<Stack>) returns (left: Stack)
      requires Pouring(was, stack, slots, still, |was|, 0, accepts, items) && |slots| == |was|
      modifies this`slots
      ensures |slots| == |was| && Poured(was, stack, slots, left, |was|, accepts, items)
    {
      left := still;
      var i := 0;
      while i < |slots|
        invariant i <= |was| == |slots| && Pouring(was, stack, slots, left, |was|, i, accepts, items)
      {
        if slots[i].count == 0 && accepts(i, left.kind) {
          left := PourAt(i, left, was, stack, |was|, i);
          if left.count == 0 {
            return;
          }
        } else {
          Passed(was, stack, slots, left, |was|, i, accepts, items);
        }
        i := i + 1;
      }
    }

    /** `insert_from` on one slot. */
    method PourAt(i: nat, left: Stack, ghost was: seq<Stack>, ghost poured: Stack, ghost merged: nat, ghost filled: nat)
      returns (rest: Stack)
      requires Pouring(was, poured, slots, left, merged, filled, accepts, items)
      requires i == (if merged < |was| then merged else filled) < |was|
      requires if merged < |was| then Partial(slots, i, accepts, poured.kind) else Free(slots, i, accepts, poured.kind)
      modifies this`slots
      ensures |slots| == |was|
      ensures rest.count == 0 ==>
        && AllValid(slots, accepts, items) && Conserves(was, poured, slots, rest, accepts, items) && rest == Items.EMPTY
        && PouredInOrder(was, slots, accepts, poured.kind, items)
      ensures rest.count != 0 ==>
        Pouring(was, poured, slots, rest, if merged < |was| then merged + 1 else merged,
                if merged < |was| then filled else filled + 1, accepts, items)
    {
      Visit(was, poured, slots, left, merged, filled, accepts, items);
      var r := Items.InsertFrom(slots[i], left, items);
      slots := slots[i := r.target];
      return r.source;
    }

    /** Takes up to `count` items from a slot; none for a slot that does not exist. */
    method Take(index: nat, count: u16) returns (r: Option<Stack>)
      requires Valid()
      modifies this
      ensures Valid()
      ensures r.None? <==> index >= |old(slots)|
      ensures r.None? ==> slots == old(slots) && stateId == old(stateId)
      ensures r.Some? ==>
        var was := old(slots)[index];
        && r.value == Items.Normalized(Items.Stack(was.kind, Items.Min(count, was.count)))
        && slots == old(slots)[index := Items.Take(was, count).1]
        && stateId == old(stateId) + (if r.value.count == 0 then 0 else 1)
      ensures r.Some? ==> forall k :: Total(slots, k) + Items.CountOf(r.value, k) == Total(old(slots), k)
    {
      if index >= |slots| {
        return None;
      }
      assert Holds(slots[index], index, accepts, items);
      var taken := Items.Take(slots[index], count);
      ghost var was := slots;
      slots := slots[index := taken.1];
      forall k ensures Total(slots, k) + Items.CountOf(taken.0, k) == Total(was, k) {
        TotalUpdate(was, index, taken.1, k);
      }
      if taken.0.count != 0 {
        stateId := stateId + 1;
      }
      return Some(taken.0);
    }

    /** `set_slot`, which throws for a slot that does not exist and for a stack the slot may not hold. */
    method SetSlot(index: nat, stack: Stack) returns (ok: bool)
      requires Valid()
      modifies this
      ensures Valid()
      ensures ok <==> index < |old(slots)| && Items.Valid(stack, items) && accepts(index, stack.kind)
      ensures ok ==> slots == old(slots)[index := stack] && stateId == old(stateId) + 1
      ensures !ok ==> slots == old(slots) && stateId == old(stateId)
    {
      if index >= |slots| || !Items.Valid(stack, items) || !accepts(index, stack.kind) {
        return false;
      }
      slots := slots[index := stack];
      stateId := stateId + 1;
      return true;
    }

    /** All changes or none, and none if the contents moved on since `expected`. */
    method ApplyTransaction(expected: nat, changes: seq<Change>) returns (ok: bool)
      requires Valid()
      modifies this
      ensures Valid()
      ensures ok <==> expected == old(stateId) && forall c :: 0 <= c < |changes| ==>
          Allowed(changes[c], |old(slots)|, accepts, items)
      ensures !ok ==> slots == old(slots)
      ensures ok ==> Amended(old(slots), slots, changes)
      ensures stateId == old(stateId) + if slots == old(slots) then 0 else 1
    {
      if expected != stateId {
        return false;
      }
      var updated := slots;
      var c := 0;
      while c < |changes|
        invariant slots == old(slots) && stateId == old(stateId)
        invariant c <= |changes| && AllValid(updated, accepts, items) && Amended(slots, updated, changes[..c])
        invariant forall d :: 0 <= d < c ==> Allowed(changes[d], |slots|, accepts, items)
      {
        if !Allowed(changes[c], |slots|, accepts, items) {
          return false;
        }
        AmendedStep(slots, updated, changes, c);
        updated := updated[changes[c].index := changes[c].stack];
        c := c + 1;
      }
      assert changes[..|changes|] == changes;
      if updated != slots {
        slots := updated;
        stateId := stateId + 1;
      }
      return true;
    }
  }
}
