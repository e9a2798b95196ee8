/** Item stacks (src/item/item.cpp).  Containers hold stacks by value, so a stack is a value here and an
    operation that changes stacks returns the changed ones. */
module Items {

  newtype u16 = x: int | 0 <= x < 0x1_0000

  /** What makes two stacks of the same thing: everything but the count. */
  datatype Kind = Kind(item: nat, damage: nat, components: map<string, string>)

  const NOTHING := Kind(0, 0, map[])

  datatype Stack = Stack(kind: Kind, count: u16)

  const EMPTY := Stack(NOTHING, 0)

  datatype Properties = Properties(maxStack: u16, maxDamage: nat)

  /** The registered items, by id; item 0 is air. */
  type Registry = seq<Properties>

  /** What the constructor of an item demands. */
  predicate ValidRegistry(items: Registry) {
    forall i :: 0 <= i < |items| ==> 1 <= items[i].maxStack <= 99
  }

  function Normalized(s: Stack): Stack {
    if s.count == 0 then EMPTY else s
  }

  /** `validate` does not throw. */
  predicate Valid(s: Stack, items: Registry) {
    if s.count == 0 then s == EMPTY
    else
      && s.kind.item != 0 && s.kind.item < |items|
      && s.count <= items[s.kind.item].maxStack && s.kind.damage <= items[s.kind.item].maxDamage
  }

  predicate CanMerge(a: Stack, b: Stack) {
    a.count != 0 && b.count != 0 && a.kind == b.kind
  }

  function Min(a: u16, b: u16): u16 {
    if a <= b then a else b
  }

  /** How many items of one kind a stack holds. */
  function CountOf(s: Stack, k: Kind): nat {
    if s.kind == k then s.count as nat else 0
  }

  datatype Inserted = Inserted(target: Stack, source: Stack)

  /** The 16-bit difference and sum the program computes, which wrap. */
  function Sub16(a: u16, b: u16): u16 {
    if b <= a then a - b else (a as int - b as int + 0x1_0000) as u16
  }

  function Add16(a: u16, b: u16): u16 {
    var sum := a as int + b as int;
    (if sum < 0x1_0000 then sum else sum - 0x1_0000) as u16
  }

  /** `insert_from`, for a source that `validate` accepts. */
  function InsertFrom(target: Stack, source: Stack, items: Registry): Inserted
    requires Valid(source, items)
  {
    if source.count == 0 then Inserted(target, source)
    else if target.count != 0 && !CanMerge(target, source) then Inserted(target, source)
    else
      var capacity := Sub16(items[source.kind.item].maxStack, target.count);
      var moved := Min(capacity, source.count);
      Inserted(Stack(source.kind, Add16(target.count, moved)),
               Normalized(Stack(source.kind, Sub16(source.count, moved))))
  }

  /** `take`: what is removed and what stays. */
  function Take(s: Stack, requested: u16): (r: (Stack, Stack))
    ensures forall k :: CountOf(r.0, k) + CountOf(r.1, k) == CountOf(s, k)
    ensures r.0.count <= requested && (r.1.count != 0 ==> r.0.count == requested)
  {
    var removed := Min(requested, s.count);
    (Normalized(Stack(s.kind, removed)), Normalized(Stack(s.kind, Sub16(s.count, removed))))
  }

  /** How many more items of a kind a slot takes that holds `s`. */
  function Space(s: Stack, k: Kind, items: Registry): nat
    requires k.item < |items|
  {
    if s.count == 0 then items[k.item].maxStack as nat
    else if s.kind == k && s.count <= items[k.item].maxStack then items[k.item].maxStack as nat - s.count as nat
    else 0
  }

  /** Between valid stacks nothing is lost or made, both stay valid, and the source keeps only what the
      target has no space for. */
  lemma InsertFromMoves(target: Stack, source: Stack, items: Registry)
    requires ValidRegistry(items) && Valid(target, items) && Valid(source, items) && source.count != 0
    ensures
      var r := InsertFrom(target, source, items);
      var space := Space(target, source.kind, items);
      && Valid(r.target, items) && Valid(r.source, items)
      && r.source.count as nat == (if source.count as nat <= space then 0 else source.count as nat - space)
      && (r.source.count != 0 ==> r.source.kind == source.kind)
      && (target.count != 0 && target.kind != source.kind ==> r == Inserted(target, source))
      && (target.count == 0 || target.kind == source.kind ==>
            r.target == Stack(source.kind, (target.count as nat + source.count as nat - r.source.count as nat) as u16))
  {
  }

  /** Into an over-full target, which no container holds, the capacity wraps and the whole source goes.
      Merging conserves the items unless that wraps the count too. */
  lemma MergeConserves(target: Stack, source: Stack, items: Registry)
    requires ValidRegistry(items) && Valid(source, items) && CanMerge(target, source)
    ensures
      var r, most := InsertFrom(target, source, items), items[source.kind.item].maxStack;
      && (target.count > most ==> r.source == EMPTY)
      && (r.target.count as nat + r.source.count as nat == target.count as nat + source.count as nat <==>
            target.count <= most || target.count as nat + source.count as nat < 0x1_0000)
  {
  }

  /** Two over-full targets: one is filled further, and the other swallows 65,536 items. */
  lemma OverfullExamples(items: Registry)
    requires |items| > 1 && items[1] == Properties(64, 0)
    ensures
      var k := Kind(1, 0, map[]);
      && InsertFrom(Stack(k, 70), Stack(k, 64), items) == Inserted(Stack(k, 134), EMPTY)
      && InsertFrom(Stack(k, 65530), Stack(k, 64), items) == Inserted(Stack(k, 58), EMPTY)
  {
  }
}
