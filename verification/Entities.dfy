/** Riding and leashes: the links `EntityManager` keeps between entities, and their restoration from
    snapshots.

    Entities are owned one to one by the manager's table, so an entity is a record in that table and
    a pointer to it is its id. */
module Entities {
  import opened Wrappers

  type EntityId = nat

  /** What an entity is, apart from its links: its type and, for a living one, its health. */
  datatype Body = Body(kind: nat, health: Option<int>)

  datatype Entity = Entity(body: Body, vehicle: Option<EntityId>, passengers: seq<EntityId>,
                           leashHolder: Option<EntityId>)

  /** The type registry: the maximum health of each known type, positive for living ones. */
  type Registry = nat -> Option<int>

  predicate BodyFits(body: Body, registry: Registry) {
    && registry(body.kind).Some?
    && if registry(body.kind).value > 0 then
         body.health.Some? && 0 <= body.health.value <= registry(body.kind).value
       else
         body.health.None?
  }

  /** The id was handed out before `nextId`, and the body suits its type. */
  ghost predicate Fits(t: Table, id: EntityId, nextId: EntityId, registry: Registry)
    requires id in t
  {
    0 < id < nextId && BodyFits(t[id].body, registry)
  }

  /** Changing links only, or dropping entities, leaves the rest fitting. */
  lemma StillFits(t: Table, t': Table, nextId: EntityId, registry: Registry)
    requires forall id {:trigger Fits(t, id, nextId, registry)} :: id in t ==> Fits(t, id, nextId, registry)
    requires forall id :: id in t' ==> id in t && t'[id].body == t[id].body
    ensures forall id {:trigger Fits(t', id, nextId, registry)} :: id in t' ==> Fits(t', id, nextId, registry)
  {
    forall id | id in t'
      ensures Fits(t', id, nextId, registry)
    {
      assert Fits(t, id, nextId, registry);
    }
  }

  /** A living entity starts at full health. */
  function NewBody(kind: nat, registry: Registry): (body: Body)
    requires registry(kind).Some?
    ensures BodyFits(body, registry) && body.kind == kind
    ensures registry(kind).value > 0 ==> body.health == registry(kind)
  {
    Body(kind, if registry(kind).value > 0 then registry(kind) else None)
  }

  type Table = map<EntityId, Entity>

  // ---------------------------------------------------------------------------------------
  // Well-formed links
  // ---------------------------------------------------------------------------------------

  /** The vehicle links alone. */
  type Links = map<EntityId, EntityId>

  ghost function LinksOf(t: Table): Links {
    map p | p in t && t[p].vehicle.Some? :: t[p].vehicle.value
  }

  /** Some member of `s` rides nothing in `s`. */
  ghost predicate HasTop(s: set<EntityId>, links: Links) {
    exists p :: p in s && (p !in links || links[p] !in s)
  }

  /** The links have no cycle: every non-empty group has a member that rides nothing in the group. */
  ghost predicate Acyclic(links: Links) {
    forall s: set<EntityId> {:trigger HasTop(s, links)} :: s != {} ==> HasTop(s, links)
  }

  function Count(s: seq<EntityId>, p: EntityId): nat {
    multiset(s)[p]
  }

  /** `p` rides `v` exactly when it occurs exactly once among the passengers of `v`. */
  ghost predicate LinkedBothWays(t: Table, p: EntityId, v: EntityId)
    requires v in t
  {
    Count(t[v].passengers, p) == if p in t && t[p].vehicle == Some(v) then 1 else 0
  }

  ghost predicate NoneDangling(t: Table, p: EntityId)
    requires p in t
  {
    && (t[p].vehicle.Some? ==> t[p].vehicle.value in t)
    && (t[p].leashHolder.Some? ==> t[p].leashHolder.value in t && t[p].leashHolder.value != p)
  }

  /** The riding forest. */
  ghost predicate Forest(t: Table) {
    && (forall p, v {:trigger LinkedBothWays(t, p, v)} :: v in t ==> LinkedBothWays(t, p, v))
    && (forall p {:trigger NoneDangling(t, p)} :: p in t ==> NoneDangling(t, p))
    && Acyclic(LinksOf(t))
  }

  /** A part of an acyclic relation is acyclic. */
  lemma SubsetIsAcyclic(links: Links, part: Links)
    requires Acyclic(links)
    requires forall p :: p in part ==> p in links && links[p] == part[p]
    ensures Acyclic(part)
  {
    forall s: set<EntityId> | s != {}
      ensures HasTop(s, part)
    {
      assert HasTop(s, links);
    }
  }

  /** `up` is closed under the links and holds `v`. */
  ghost predicate Ancestry(links: Links, up: set<EntityId>, v: EntityId) {
    v in up && forall p :: p in up && p in links ==> links[p] in up
  }

  /** Hanging `p` under `v` closes no cycle when some ancestry of `v` is without `p`. */
  lemma MountKeepsAcyclic(links: Links, p: EntityId, v: EntityId, up: set<EntityId>)
    requires Acyclic(links) && Ancestry(links, up, v) && p !in up
    ensures Acyclic(links[p := v])
  {
    forall s: set<EntityId> {:trigger HasTop(s, links[p := v])} | s != {}
      ensures HasTop(s, links[p := v])
    {
      if v in s {
        assert v in s * up;
        assert HasTop(s * up, links);
        var q :| q in s * up && (q !in links || links[q] !in s * up);
        assert q !in links[p := v] || links[p := v][q] !in s;
      } else {
        assert HasTop(s, links);
        var q :| q in s && (q !in links || links[q] !in s);
        assert q !in links[p := v] || links[p := v][q] !in s;
      }
    }
  }

  /** Conversely, hanging an ancestor under its descendant would close one: on acyclic links the two
      tests exclude each other. */
  lemma AncestorClosesCycle(links: Links, p: EntityId, v: EntityId, chain: set<EntityId>)
    requires p in chain && v in chain
    requires forall q :: q in chain && q != p ==> q in links && links[q] in chain
    ensures !Acyclic(links[p := v])
  {
    assert !HasTop(chain, links[p := v]);
  }

  // ---------------------------------------------------------------------------------------
  // The steps of the manager, on tables
  // ---------------------------------------------------------------------------------------

  /** `std::erase`: all occurrences go, the rest keeps its order. */
  function Erase(s: seq<EntityId>, p: EntityId): (r: seq<EntityId>)
    ensures multiset(r) == multiset(s)[p := 0]
  {
    if s == [] then []
    else
      assert s == s[..|s| - 1] + [s[|s| - 1]];
      if s[|s| - 1] == p then Erase(s[..|s| - 1], p) else Erase(s[..|s| - 1], p) + [s[|s| - 1]]
  }

  lemma {:induction false} EraseAbsent(s: seq<EntityId>, p: EntityId)
    requires Count(s, p) == 0
    ensures Erase(s, p) == s
  {
    if s != [] {
      assert s == s[..|s| - 1] + [s[|s| - 1]];
      EraseAbsent(s[..|s| - 1], p);
    }
  }

  ghost function Dismounted(t: Table, p: EntityId): Table
    requires p in t ==> NoneDangling(t, p)
  {
    if p in t && t[p].vehicle.Some? then Freed(t, p, t[p].vehicle.value) else t
  }

  ghost function Freed(t: Table, p: EntityId, v: EntityId): Table
    requires p in t && v in t
  {
    var freed := t[v := t[v].(passengers := Erase(t[v].passengers, p))];
    freed[p := freed[p].(vehicle := None)]
  }

  ghost function Mounted(t: Table, p: EntityId, v: EntityId): Table
    requires p in t && v in t && NoneDangling(t, p)
  {
    Hung(Dismounted(t, p), p, v)
  }

  ghost function Hung(t: Table, p: EntityId, v: EntityId): Table
    requires p in t && v in t
  {
    var riding := t[p := t[p].(vehicle := Some(v))];
    riding[v := riding[v].(passengers := riding[v].passengers + [p])]
  }

  function Released(e: Entity, id: EntityId): Entity {
    if e.leashHolder == Some(id) then e.(leashHolder := None) else e
  }

  /** Removal cuts every link from and to the entity. */
  ghost function Without(t: Table, id: EntityId): Table {
    map q | q in t && q != id ::
      Entity(t[q].body, if t[q].vehicle == Some(id) then None else t[q].vehicle, Erase(t[q].passengers, id),
             if t[q].leashHolder == Some(id) then None else t[q].leashHolder)
  }

  lemma NobodyRidesItself(t: Table, p: EntityId)
    requires Forest(t) && p in t
    ensures t[p].vehicle != Some(p)
  {
    assert HasTop({p}, LinksOf(t));
  }

  lemma FreeKeepsLinkAt(t: Table, p: EntityId, v: EntityId, q: EntityId, w: EntityId)
    requires p in t && v in t && w in t && p != v && t[p].vehicle == Some(v)
    requires LinkedBothWays(t, q, w)
    ensures LinkedBothWays(Freed(t, p, v), q, w)
  {
  }

  lemma FreeKeepsLinks(t: Table, p: EntityId, v: EntityId)
    requires Forest(t) && p in t && v in t && p != v && t[p].vehicle == Some(v)
    ensures forall q, w {:trigger LinkedBothWays(Freed(t, p, v), q, w)} :: w in t ==>
        LinkedBothWays(Freed(t, p, v), q, w)
    ensures forall q {:trigger NoneDangling(Freed(t, p, v), q)} :: q in t ==> NoneDangling(Freed(t, p, v), q)
    ensures LinksOf(Freed(t, p, v)) == LinksOf(t) - {p}
    ensures Freed(t, p, v).Keys == t.Keys
  {
    var t' := Freed(t, p, v);
    FreedLinks(t, p, v);
    forall q, w | w in t
      ensures LinkedBothWays(t', q, w)
    {
      assert LinkedBothWays(t, q, w);
      FreeKeepsLinkAt(t, p, v, q, w);
    }
    forall q | q in t
      ensures NoneDangling(t', q)
    {
      assert NoneDangling(t, q);
    }
  }

  lemma FreedLinks(t: Table, p: EntityId, v: EntityId)
    requires p in t && v in t && p != v
    ensures LinksOf(Freed(t, p, v)) == LinksOf(t) - {p}
    ensures Freed(t, p, v).Keys == t.Keys
  {
  }

  lemma DismountKeepsForest(t: Table, p: EntityId)
    requires Forest(t)
    ensures p in t ==> NoneDangling(t, p)
    ensures Forest(Dismounted(t, p))
    ensures LinksOf(Dismounted(t, p)) == LinksOf(t) - {p}
  {
    assert p in t ==> NoneDangling(t, p);
    if p in t && t[p].vehicle.Some? {
      NobodyRidesItself(t, p);
      FreeKeepsLinks(t, p, t[p].vehicle.value);
    } else {
      assert LinksOf(t) == LinksOf(t) - {p};
    }
    SubsetIsAcyclic(LinksOf(t), LinksOf(t) - {p});
  }

  lemma MountKeepsForest(t: Table, p: EntityId, v: EntityId)
    requires Forest(t) && p in t && v in t
    requires Acyclic(LinksOf(t)[p := v])
    ensures NoneDangling(t, p) && p != v
    ensures Forest(Mounted(t, p, v)) && LinksOf(Mounted(t, p, v)) == LinksOf(t)[p := v]
  {
    DismountKeepsForest(t, p);
    assert HasTop({p}, LinksOf(t)[p := v]);
    HangKeepsLinks(Dismounted(t, p), p, v);
    assert LinksOf(Mounted(t, p, v)) == LinksOf(Dismounted(t, p))[p := v] == LinksOf(t)[p := v];
  }

  lemma HangKeepsLinkAt(t: Table, p: EntityId, v: EntityId, q: EntityId, w: EntityId)
    requires p in t && v in t && w in t && p != v && t[p].vehicle == None
    requires LinkedBothWays(t, q, w)
    ensures LinkedBothWays(Hung(t, p, v), q, w)
  {
  }

  lemma HangKeepsLinks(t: Table, p: EntityId, v: EntityId)
    requires Forest(t) && p in t && v in t && p != v && t[p].vehicle == None
    ensures forall q, w {:trigger LinkedBothWays(Hung(t, p, v), q, w)} :: w in t ==> LinkedBothWays(Hung(t, p, v), q, w)
    ensures forall q {:trigger NoneDangling(Hung(t, p, v), q)} :: q in t ==> NoneDangling(Hung(t, p, v), q)
    ensures LinksOf(Hung(t, p, v)) == LinksOf(t)[p := v]
    ensures Hung(t, p, v).Keys == t.Keys
  {
    var t' := Hung(t, p, v);
    forall q, w | w in t
      ensures LinkedBothWays(t', q, w)
    {
      assert LinkedBothWays(t, q, w);
      HangKeepsLinkAt(t, p, v, q, w);
    }
    forall q | q in t
      ensures NoneDangling(t', q)
    {
      assert NoneDangling(t, q);
    }
  }

  lemma RemoveKeepsForest(t: Table, id: EntityId)
    requires Forest(t)
    ensures Forest(Without(t, id))
  {
    var t' := Without(t, id);
    forall q, v | v in t'
      ensures LinkedBothWays(t', q, v)
    {
      assert LinkedBothWays(t, q, v);
    }
    forall q | q in t'
      ensures NoneDangling(t', q)
    {
      assert NoneDangling(t, q);
    }
    SubsetIsAcyclic(LinksOf(t), LinksOf(t'));
  }

  lemma SpawnKeepsForest(t: Table, id: EntityId, body: Body)
    requires Forest(t) && id !in t
    ensures Forest(t[id := Entity(body, None, [], None)])
  {
    var t' := t[id := Entity(body, None, [], None)];
    forall q, v | v in t'
      ensures LinkedBothWays(t', q, v)
    {
      assert v in t ==> LinkedBothWays(t, q, v);
      if v == id && q in t {
        assert NoneDangling(t, q);
      }
    }
    forall q | q in t'
      ensures NoneDangling(t', q)
    {
      assert q in t ==> NoneDangling(t, q);
    }
    assert LinksOf(t') == LinksOf(t);
  }

  lemma LeashKeepsForest(t: Table, id: EntityId, holder: Option<EntityId>)
    requires Forest(t) && id in t
    requires holder.Some? ==> holder.value in t && holder.value != id
    ensures Forest(t[id := t[id].(leashHolder := holder)])
    ensures LinksOf(t[id := t[id].(leashHolder := holder)]) == LinksOf(t)
  {
    var t' := t[id := t[id].(leashHolder := holder)];
    forall q, v | v in t'
      ensures LinkedBothWays(t', q, v)
    {
      assert LinkedBothWays(t, q, v);
    }
    forall q | q in t'
      ensures NoneDangling(t', q)
    {
      assert NoneDangling(t, q);
    }
    assert LinksOf(t') == LinksOf(t);
  }

  // ---------------------------------------------------------------------------------------
  // Removal, in pieces
  // ---------------------------------------------------------------------------------------

  /** After the removed entity has dismounted and the riders in `gone` have. */
  ghost predicate Unseated(t: Table, now: Table, id: EntityId, gone: seq<EntityId>)
    requires id in t
  {
    && now.Keys == t.Keys
    && (now[id].vehicle, now[id].leashHolder, now[id].body) == (None, t[id].leashHolder, t[id].body)
    && forall q {:trigger SeatOf(t, now, id, gone, q)} :: q in t && q != id ==> SeatOf(t, now, id, gone, q)
  }

  ghost predicate SeatOf(t: Table, now: Table, id: EntityId, gone: seq<EntityId>, q: EntityId)
    requires q in t && q in now
  {
    now[q] == Entity(t[q].body, if t[q].vehicle == Some(id) && q in gone then None else t[q].vehicle,
                     Erase(t[q].passengers, id), t[q].leashHolder)
  }

  lemma DismountBeginsRemoval(t: Table, id: EntityId)
    requires Forest(t) && id in t
    ensures NoneDangling(t, id) && Unseated(t, Dismounted(t, id), id, [])
    ensures Dismounted(t, id)[id].passengers == t[id].passengers
  {
    assert NoneDangling(t, id);
    NobodyRidesItself(t, id);
    forall q | q in t && t[id].vehicle != Some(q)
      ensures Erase(t[q].passengers, id) == t[q].passengers
    {
      assert LinkedBothWays(t, id, q);
      EraseAbsent(t[q].passengers, id);
    }
    forall q | q in t && q != id
      ensures SeatOf(t, Dismounted(t, id), id, [], q)
    {
    }
  }

  lemma RidersOf(t: Table, id: EntityId, k: nat)
    requires Forest(t) && id in t && k < |t[id].passengers|
    ensures
      var rider := t[id].passengers[k];
      rider in t && t[rider].vehicle == Some(id) && rider != id && rider !in t[id].passengers[..k]
  {
    var s, rider := t[id].passengers, t[id].passengers[k];
    assert LinkedBothWays(t, rider, id);
    assert s == s[..k] + ([rider] + s[k + 1..]);
    assert multiset(s)[rider] == multiset(s[..k])[rider] + 1 + multiset(s[k + 1..])[rider];
    NobodyRidesItself(t, id);
  }

  lemma UnseatStep(t: Table, now: Table, id: EntityId, k: nat)
    requires Forest(t) && Forest(now) && id in t && k < |t[id].passengers|
    requires Unseated(t, now, id, t[id].passengers[..k])
    ensures t[id].passengers[k] in now && NoneDangling(now, t[id].passengers[k])
    ensures Unseated(t, Dismounted(now, t[id].passengers[k]), id, t[id].passengers[..k + 1])
  {
    var rider := t[id].passengers[k];
    RidersOf(t, id, k);
    var gone, gone' := t[id].passengers[..k], t[id].passengers[..k + 1];
    assert gone' == gone + [rider];
    assert NoneDangling(now, rider);
    assert SeatOf(t, now, id, gone, rider);
    forall q | q in t && q != id
      ensures SeatOf(t, Dismounted(now, rider), id, gone', q)
    {
      assert SeatOf(t, now, id, gone, q);
    }
  }

  lemma UnseatEnds(t: Table, now: Table, id: EntityId)
    requires Forest(t) && id in t && Unseated(t, now, id, t[id].passengers)
    ensures (map q | q in now :: Released(now[q], id)) - {id} == Without(t, id)
  {
    forall q | q in t && q != id
      ensures Released(now[q], id) == Without(t, id)[q]
    {
      assert SeatOf(t, now, id, t[id].passengers, q);
      if t[q].vehicle == Some(id) {
        AllRiders(t, id, q);
      }
    }
  }

  lemma AllRiders(t: Table, id: EntityId, q: EntityId)
    requires Forest(t) && id in t && q in t && t[q].vehicle == Some(id)
    ensures q in t[id].passengers
  {
    assert LinkedBothWays(t, q, id);
  }

  // ---------------------------------------------------------------------------------------
  // Snapshots
  // ---------------------------------------------------------------------------------------

  /** What a snapshot keeps of an entity. */
  datatype Snapshot = Snapshot(id: EntityId, body: Body, vehicle: Option<EntityId>, leashHolder: Option<EntityId>)

  datatype RestoreError = NotEmpty | BadId | BadBody | BadVehicle | BadLeash

  ghost predicate Ascending(s: seq<EntityId>) {
    forall i, j :: 0 <= i < j < |s| ==> s[i] < s[j]
  }

  function IdsOf(snaps: seq<Snapshot>): seq<EntityId> {
    seq(|snaps|, k requires 0 <= k < |snaps| => snaps[k].id)
  }

  /** One snapshot for each entity, in the order of their ids. */
  ghost predicate Captures(snaps: seq<Snapshot>, t: Table) {
    && Ascending(IdsOf(snaps))
    && (forall k :: 0 <= k < |snaps| ==>
          snaps[k].id in t &&
          var e := t[snaps[k].id];
          snaps[k] == Snapshot(snaps[k].id, e.body, e.vehicle, e.leashHolder))
    && (forall id :: id in t ==> id in IdsOf(snaps))
  }

  /** The vehicle links the snapshots ask for. */
  ghost function Wanted(snaps: seq<Snapshot>): Links {
    if snaps == [] then map[]
    else
      var last := snaps[|snaps| - 1];
      var before := Wanted(snaps[..|snaps| - 1]);
      if last.vehicle.Some? then before[last.id := last.vehicle.value] else before
  }

  /** The riders of `v` among the snapshots, in their order. */
  ghost function Riders(snaps: seq<Snapshot>, v: EntityId): seq<EntityId> {
    if snaps == [] then []
    else
      var last := snaps[|snaps| - 1];
      Riders(snaps[..|snaps| - 1], v) + if last.vehicle == Some(v) then [last.id] else []
  }

  ghost predicate Distinct(snaps: seq<Snapshot>) {
    forall j, k :: 0 <= j < k < |snaps| ==> snaps[j].id != snaps[k].id
  }

  /** The snapshot lists a manager accepts: a forest over their own ids. */
  ghost predicate Restorable(snaps: seq<Snapshot>, registry: Registry) {
    && Distinct(snaps)
    && (forall k :: 0 <= k < |snaps| ==> snaps[k].id != 0 && BodyFits(snaps[k].body, registry))
    && (forall k :: 0 <= k < |snaps| ==> LinksExist(snaps, k))
    && Acyclic(Wanted(snaps))
  }

  ghost predicate LinksExist(snaps: seq<Snapshot>, k: nat)
    requires k < |snaps|
  {
    && (snaps[k].vehicle.Some? ==> snaps[k].vehicle.value in IdsOf(snaps))
    && (snaps[k].leashHolder.Some? ==>
          snaps[k].leashHolder.value in IdsOf(snaps) && snaps[k].leashHolder.value != snaps[k].id)
  }

  /** The table holds the snapshots: the first `m` ride their vehicles, the first `l` are leashed. */
  ghost predicate Built(t: Table, snaps: seq<Snapshot>, m: nat, l: nat) {
    && l <= m <= |snaps|
    && (forall id :: id in t <==> id in IdsOf(snaps))
    && (forall k {:trigger BuiltAt(t, snaps, m, l, k)} :: 0 <= k < |snaps| ==> BuiltAt(t, snaps, m, l, k))
    && LinksOf(t) == Wanted(snaps[..m])
  }

  ghost predicate BuiltAt(t: Table, snaps: seq<Snapshot>, m: nat, l: nat, k: nat)
    requires l <= m <= |snaps| && k < |snaps|
  {
    snaps[k].id in t &&
    t[snaps[k].id] == Entity(snaps[k].body, if k < m then snaps[k].vehicle else None,
                             Riders(snaps[..m], snaps[k].id), if k < l then snaps[k].leashHolder else None)
  }

  lemma LinkStep(snaps: seq<Snapshot>, m: nat)
    requires m < |snaps|
    ensures Wanted(snaps[..m + 1]) ==
            if snaps[m].vehicle.Some? then Wanted(snaps[..m])[snaps[m].id := snaps[m].vehicle.value]
                else Wanted(snaps[..m])
    ensures forall v: EntityId ::
      Riders(snaps[..m + 1], v) == Riders(snaps[..m], v) + if snaps[m].vehicle == Some(v) then [snaps[m].id] else []
  {
    assert snaps[..m + 1][..m] == snaps[..m];
  }

  /** A mount the snapshots ask for is refused only if they do not describe a forest. */
  lemma WantedMountAccepted(t: Table, snaps: seq<Snapshot>, m: nat, registry: Registry)
    requires m < |snaps| && Built(t, snaps, m, m) && snaps[m].vehicle.Some? && Restorable(snaps, registry)
    ensures snaps[m].vehicle.value in t && Acyclic(LinksOf(t)[snaps[m].id := snaps[m].vehicle.value])
  {
    assert LinksExist(snaps, m);
    LinkStep(snaps, m);
    WantedSubset(snaps, m + 1);
    SubsetIsAcyclic(Wanted(snaps), Wanted(snaps[..m + 1]));
  }

  ghost function WithVehicle(t: Table, p: EntityId, vehicle: Option<EntityId>): Table
    requires p in t && (vehicle.Some? ==> vehicle.value in t)
  {
    if vehicle.Some? then Hung(t, p, vehicle.value) else t
  }

  lemma MountBuildsAt(t: Table, snaps: seq<Snapshot>, m: nat, k: nat)
    requires m < |snaps| && k < |snaps| && Distinct(snaps) && BuiltAt(t, snaps, m, m, k) && BuiltAt(t, snaps, m, m, m)
    requires snaps[m].vehicle.Some? ==> snaps[m].vehicle.value in t && snaps[m].vehicle.value != snaps[m].id
    ensures BuiltAt(WithVehicle(t, snaps[m].id, snaps[m].vehicle), snaps, m + 1, m, k)
  {
    LinkStep(snaps, m);
    assert Riders(snaps[..m + 1], snaps[k].id) ==
           if snaps[m].vehicle == Some(snaps[k].id) then Riders(snaps[..m], snaps[k].id) + [snaps[m].id]
               else Riders(snaps[..m], snaps[k].id);
  }

  lemma MountBuilds(t: Table, snaps: seq<Snapshot>, m: nat)
    requires m < |snaps| && Distinct(snaps) && Built(t, snaps, m, m)
    requires snaps[m].vehicle.Some? ==> snaps[m].vehicle.value in t && snaps[m].vehicle.value != snaps[m].id
    ensures snaps[m].id in t && t[snaps[m].id].vehicle == None
    ensures Built(WithVehicle(t, snaps[m].id, snaps[m].vehicle), snaps, m + 1, m)
  {
    LinkStep(snaps, m);
    assert BuiltAt(t, snaps, m, m, m);
    var p := snaps[m].id;
    var t' := WithVehicle(t, p, snaps[m].vehicle);
    forall k {:trigger BuiltAt(t', snaps, m + 1, m, k)} | 0 <= k < |snaps|
      ensures BuiltAt(t', snaps, m + 1, m, k)
    {
      assert BuiltAt(t, snaps, m, m, k);
      MountBuildsAt(t, snaps, m, k);
    }
    WithVehicleLinks(t, p, snaps[m].vehicle);
  }

  lemma WithVehicleLinks(t: Table, p: EntityId, vehicle: Option<EntityId>)
    requires p in t && (vehicle.Some? ==> vehicle.value in t && vehicle.value != p)
    ensures LinksOf(WithVehicle(t, p, vehicle)) == if vehicle.Some? then LinksOf(t)[p := vehicle.value] else LinksOf(t)
  {
  }

  lemma LeashBuilds(t: Table, snaps: seq<Snapshot>, m: nat)
    requires m < |snaps| && Distinct(snaps) && Built(t, snaps, m + 1, m)
    ensures snaps[m].id in t
    ensures Built(t[snaps[m].id := t[snaps[m].id].(leashHolder := snaps[m].leashHolder)], snaps, m + 1, m + 1)
    ensures snaps[m].leashHolder.None? ==> Built(t, snaps, m + 1, m + 1)
  {
    assert BuiltAt(t, snaps, m + 1, m, m);
    var p := snaps[m].id;
    var t' := t[p := t[p].(leashHolder := snaps[m].leashHolder)];
    forall k {:trigger BuiltAt(t', snaps, m + 1, m + 1, k)} | 0 <= k < |snaps|
      ensures BuiltAt(t', snaps, m + 1, m + 1, k)
    {
      assert BuiltAt(t, snaps, m + 1, m, k);
    }
    assert LinksOf(t') == LinksOf(t);
    assert snaps[m].leashHolder.None? ==> t' == t;
  }

  /** The first `k` snapshots have their bare entities. */
  ghost predicate Created(t: Table, snaps: seq<Snapshot>, k: nat, nextId: EntityId, registry: Registry) {
    && k <= |snaps|
    && Distinct(snaps[..k])
    && (forall id :: id in t ==> id in IdsOf(snaps[..k]))
    && (forall j {:trigger CreatedAt(t, snaps, j, nextId, registry)} :: 0 <= j < k ==>
        CreatedAt(t, snaps, j, nextId, registry))
  }

  ghost predicate CreatedAt(t: Table, snaps: seq<Snapshot>, j: nat, nextId: EntityId, registry: Registry)
    requires j < |snaps|
  {
    && snaps[j].id in t && t[snaps[j].id] == Entity(snaps[j].body, None, [], None)
    && 0 < snaps[j].id < nextId && BodyFits(snaps[j].body, registry)
  }

  lemma CreatedSoFar(t: Table, snaps: seq<Snapshot>, k: nat, nextId: EntityId, registry: Registry)
    requires k < |snaps| && Created(t, snaps, k, nextId, registry)
    ensures snaps[k].id in t ==> !Distinct(snaps)
  {
    if snaps[k].id in t {
      var j :| 0 <= j < k && IdsOf(snaps[..k])[j] == snaps[k].id;
      assert snaps[j].id == snaps[k].id;
    }
  }

  lemma CreatedStep(t: Table, snaps: seq<Snapshot>, k: nat, nextId: EntityId, registry: Registry)
    requires k < |snaps| && Created(t, snaps, k, nextId, registry)
    requires snaps[k].id != 0 && snaps[k].id !in t && BodyFits(snaps[k].body, registry)
    ensures
      var s := snaps[k];
      var nextId' := if nextId < s.id + 1 then s.id + 1 else nextId;
      Created(t[s.id := Entity(s.body, None, [], None)], snaps, k + 1, nextId', registry)
  {
    var s := snaps[k];
    var nextId' := if nextId < s.id + 1 then s.id + 1 else nextId;
    var t' := t[s.id := Entity(s.body, None, [], None)];
    assert IdsOf(snaps[..k + 1]) == IdsOf(snaps[..k]) + [s.id];
    forall j {:trigger CreatedAt(t', snaps, j, nextId', registry)} | 0 <= j <= k
      ensures CreatedAt(t', snaps, j, nextId', registry)
    {
      assert j < k ==> CreatedAt(t, snaps, j, nextId, registry);
    }
    forall i, j {:trigger snaps[..k + 1][i], snaps[..k + 1][j]} | 0 <= i < j <= k
      ensures snaps[..k + 1][i].id != snaps[..k + 1][j].id
    {
      assert CreatedAt(t, snaps, i, nextId, registry);
      assert j < k ==> snaps[..k][i].id != snaps[..k][j].id;
    }
  }

  /** At any time of the first pass the table is sound. */
  lemma CreatedIsSound(t: Table, snaps: seq<Snapshot>, k: nat, nextId: EntityId, registry: Registry)
    requires Created(t, snaps, k, nextId, registry)
    ensures Forest(t) && LinksOf(t) == map[]
    ensures forall id {:trigger Fits(t, id, nextId, registry)} :: id in t ==> Fits(t, id, nextId, registry)
  {
    forall id | id in t
      ensures t[id].vehicle == None && t[id].passengers == [] && t[id].leashHolder == None
      ensures Fits(t, id, nextId, registry)
    {
      var j :| 0 <= j < k && IdsOf(snaps[..k])[j] == id;
      assert snaps[..k][j] == snaps[j];
      assert CreatedAt(t, snaps, j, nextId, registry);
    }
    BareIsForest(t);
  }

  lemma CreatedEnds(t: Table, snaps: seq<Snapshot>, nextId: EntityId, registry: Registry)
    requires Created(t, snaps, |snaps|, nextId, registry)
    ensures Distinct(snaps) && Built(t, snaps, 0, 0)
    ensures forall k :: 0 <= k < |snaps| ==> snaps[k].id != 0 && BodyFits(snaps[k].body, registry)
  {
    assert snaps[..|snaps|] == snaps;
    forall k | 0 <= k < |snaps|
      ensures CreatedAt(t, snaps, k, nextId, registry)
      ensures IdsOf(snaps)[k] == snaps[k].id
    {
    }
    CreatedIsSound(t, snaps, |snaps|, nextId, registry);
    forall k {:trigger BuiltAt(t, snaps, 0, 0, k)} | 0 <= k < |snaps|
      ensures BuiltAt(t, snaps, 0, 0, k)
    {
      assert CreatedAt(t, snaps, k, nextId, registry);
    }
  }

  lemma BareIsForest(t: Table)
    requires forall id :: id in t ==> t[id].vehicle == None && t[id].passengers == [] && t[id].leashHolder == None
    ensures Forest(t) && LinksOf(t) == map[]
  {
    assert LinksOf(t) == map[];
    forall s: set<EntityId> {:trigger HasTop(s, LinksOf(t))} | s != {}
      ensures HasTop(s, LinksOf(t))
    {
      var p :| p in s;
    }
  }

  lemma {:induction false} WantedSubset(snaps: seq<Snapshot>, m: nat)
    requires Distinct(snaps) && m <= |snaps|
    ensures forall p :: p in Wanted(snaps[..m]) ==> p in Wanted(snaps) && Wanted(snaps)[p] == Wanted(snaps[..m])[p]
    ensures forall k :: 0 <= k < |snaps| ==>
      (snaps[k].id in Wanted(snaps) <==> snaps[k].vehicle.Some?) &&
      (snaps[k].vehicle.Some? ==> Wanted(snaps)[snaps[k].id] == snaps[k].vehicle.value)
    ensures forall p :: p in Wanted(snaps) ==> p in IdsOf(snaps)
  {
    if m == |snaps| {
      assert snaps[..m] == snaps;
    }
    if snaps != [] {
      var n := |snaps| - 1;
      WantedSubset(snaps[..n], if m < |snaps| then m else n);
      assert m < |snaps| ==> snaps[..n][..m] == snaps[..m];
      assert IdsOf(snaps) == IdsOf(snaps[..n]) + [snaps[n].id];
      assert forall k :: 0 <= k < n ==> snaps[..n][k] == snaps[k];
      assert snaps[n].id !in IdsOf(snaps[..n]);
    }
  }

  // ---------------------------------------------------------------------------------------
  // Restoring what was saved
  // ---------------------------------------------------------------------------------------

  lemma CapturedWanted(snaps: seq<Snapshot>, t: Table)
    requires Captures(snaps, t)
    ensures Distinct(snaps) && Wanted(snaps) == LinksOf(t)
  {
    forall j, k | 0 <= j < k < |snaps|
      ensures snaps[j].id != snaps[k].id
    {
      assert IdsOf(snaps)[j] < IdsOf(snaps)[k];
    }
    WantedSubset(snaps, 0);
    forall p
      ensures p in Wanted(snaps) <==> p in LinksOf(t)
      ensures p in LinksOf(t) ==> Wanted(snaps)[p] == LinksOf(t)[p]
    {
      if p in IdsOf(snaps) {
        var k :| 0 <= k < |snaps| && IdsOf(snaps)[k] == p;
        assert snaps[k].id == p;
      }
    }
  }

  /** The snapshots of any reachable manager are accepted. */
  lemma SnapshotsAreRestorable(t: Table, snaps: seq<Snapshot>, nextId: EntityId, registry: Registry)
    requires Forest(t) && Captures(snaps, t)
    requires forall id {:trigger Fits(t, id, nextId, registry)} :: id in t ==> Fits(t, id, nextId, registry)
    ensures Restorable(snaps, registry)
  {
    CapturedWanted(snaps, t);
    forall k | 0 <= k < |snaps|
      ensures LinksExist(snaps, k) && snaps[k].id != 0 && BodyFits(snaps[k].body, registry)
    {
      assert NoneDangling(t, snaps[k].id) && Fits(t, snaps[k].id, nextId, registry);
    }
  }

  lemma {:induction false} RidersAscend(snaps: seq<Snapshot>, v: EntityId)
    requires forall j, k :: 0 <= j < k < |snaps| ==> snaps[j].id < snaps[k].id
    ensures Ascending(Riders(snaps, v))
    ensures forall r :: r in Riders(snaps, v) ==> exists k :: 0 <= k < |snaps| && snaps[k].id == r
  {
    if snaps != [] {
      var init, last := snaps[..|snaps| - 1], snaps[|snaps| - 1];
      RidersAscend(init, v);
      var before := Riders(init, v);
      forall i | 0 <= i < |before|
        ensures before[i] < last.id
      {
        assert before[i] in before;
        var k :| 0 <= k < |init| && init[k].id == before[i];
        assert snaps[k] == init[k];
      }
      forall r | r in Riders(snaps, v)
        ensures exists k :: 0 <= k < |snaps| && snaps[k].id == r
      {
        if r in before {
          var k :| 0 <= k < |init| && init[k].id == r;
          assert snaps[k].id == r;
        } else {
          assert snaps[|snaps| - 1].id == r;
        }
      }
    }
  }

  lemma LastIsGreatest(a: seq<EntityId>, x: EntityId)
    requires Ascending(a) && x in a
    ensures x <= a[|a| - 1]
  {
    var i :| 0 <= i < |a| && a[i] == x;
    assert i < |a| - 1 ==> a[i] < a[|a| - 1];
  }

  lemma {:induction false} AscendingIsUnique(a: seq<EntityId>, b: seq<EntityId>)
    requires Ascending(a) && Ascending(b) && multiset(a) == multiset(b)
    ensures a == b
    decreases |a|
  {
    SameLength(a, b);
    if a != [] {
      var m := |a| - 1;
      GreatestAgree(a, b);
      EqualButLast(a, b, m);
      AscendingIsUnique(a[..m], b[..m]);
      SameFromParts(a, b, m);
    }
  }

  lemma SameLength(a: seq<EntityId>, b: seq<EntityId>)
    requires multiset(a) == multiset(b)
    ensures |a| == |b|
  {
    assert |multiset(a)| == |a| && |multiset(b)| == |b|;
  }

  lemma GreatestAgree(a: seq<EntityId>, b: seq<EntityId>)
    requires Ascending(a) && Ascending(b) && multiset(a) == multiset(b) && |a| == |b| > 0
    ensures a[|a| - 1] == b[|b| - 1]
  {
    assert a[|a| - 1] in multiset(b) && b[|b| - 1] in multiset(a);
    LastIsGreatest(a, b[|b| - 1]);
    LastIsGreatest(b, a[|a| - 1]);
  }

  lemma SameFromParts(a: seq<EntityId>, b: seq<EntityId>, m: nat)
    requires |a| == |b| == m + 1 && a[..m] == b[..m] && a[m] == b[m]
    ensures a == b
  {
    assert a == a[..m] + [a[m]] && b == b[..m] + [b[m]];
  }

  lemma EqualButLast(a: seq<EntityId>, b: seq<EntityId>, m: nat)
    requires |a| == |b| == m + 1 && a[m] == b[m] && multiset(a) == multiset(b)
    ensures multiset(a[..m]) == multiset(b[..m])
  {
    assert a == a[..m] + [a[m]] && b == b[..m] + [b[m]];
    assert multiset(a[..m]) == multiset(a) - multiset{a[m]};
    assert multiset(b[..m]) == multiset(b) - multiset{b[m]};
  }

  lemma AscendingSnapshots(snaps: seq<Snapshot>)
    requires Ascending(IdsOf(snaps))
    ensures forall j, k :: 0 <= j < k < |snaps| ==> snaps[j].id < snaps[k].id
  {
    forall j, k | 0 <= j < k < |snaps|
      ensures snaps[j].id < snaps[k].id
    {
      assert IdsOf(snaps)[j] < IdsOf(snaps)[k];
    }
  }

  /** Restoring the snapshots of a manager reproduces its ids, bodies, vehicles and leashes; passengers
      come back as the same riders in id order. */
  lemma RestoreReproduces(t: Table, t': Table, snaps: seq<Snapshot>)
    requires Forest(t) && Forest(t') && Captures(snaps, t) && Built(t', snaps, |snaps|, |snaps|)
    ensures t'.Keys == t.Keys
    ensures forall id :: id in t ==>
      && (t'[id].body, t'[id].vehicle, t'[id].leashHolder) == (t[id].body, t[id].vehicle, t[id].leashHolder)
      && multiset(t'[id].passengers) == multiset(t[id].passengers) && Ascending(t'[id].passengers)
  {
    assert snaps[..|snaps|] == snaps;
    forall id | id in t
      ensures id in t'
      ensures (t'[id].body, t'[id].vehicle, t'[id].leashHolder) == (t[id].body, t[id].vehicle, t[id].leashHolder)
      ensures Ascending(t'[id].passengers)
    {
      var k :| 0 <= k < |snaps| && IdsOf(snaps)[k] == id;
      assert BuiltAt(t', snaps, |snaps|, |snaps|, k);
      AscendingSnapshots(snaps);
      RidersAscend(snaps, id);
    }
    forall id | id in t'
      ensures id in t
    {
      var k :| 0 <= k < |snaps| && IdsOf(snaps)[k] == id;
      assert snaps[k].id == id;
    }
    forall id | id in t
      ensures multiset(t'[id].passengers) == multiset(t[id].passengers)
    {
      SameRiders(t, t', id);
    }
  }

  lemma SameRiders(t: Table, t': Table, v: EntityId)
    requires Forest(t) && Forest(t') && t'.Keys == t.Keys && v in t
    requires forall id :: id in t ==> t'[id].vehicle == t[id].vehicle
    ensures multiset(t'[v].passengers) == multiset(t[v].passengers)
  {
    forall p
      ensures multiset(t'[v].passengers)[p] == multiset(t[v].passengers)[p]
    {
      assert LinkedBothWays(t, p, v) && LinkedBothWays(t', p, v);
    }
  }

  /** `next` is the least id from `first` on that is above all of `ids`. */
  ghost predicate FirstFree(next: EntityId, first: EntityId, ids: seq<EntityId>) {
    && next >= first && (forall id :: id in ids ==> id < next)
    && (next > first ==> next - 1 in ids)
  }

  /** What a restore leaves behind that failed with `error` at snapshot `n`: in the first pass the entities
      before it, without links; in the second all of them, linked up to there. */
  ghost predicate Leftover(t: Table, snaps: seq<Snapshot>, n: nat, error: RestoreError, nextId: EntityId,
                           first: EntityId, registry: Registry)
  {
    n < |snaps| &&
    var s := snaps[n];
    match error
    case NotEmpty => false
    case BadId => CreatedOnly(t, snaps, n, nextId, first, registry) && (s.id == 0 || s.id in t)
    case BadBody => CreatedOnly(t, snaps, n, nextId, first, registry) && !BodyFits(s.body, registry)
    case BadVehicle =>
      && Built(t, snaps, n, n) && FirstFree(nextId, first, IdsOf(snaps)) && s.vehicle.Some?
      && !(s.vehicle.value in t && Acyclic(LinksOf(t)[s.id := s.vehicle.value]))
    case BadLeash =>
      && Built(t, snaps, n + 1, n) && FirstFree(nextId, first, IdsOf(snaps)) && s.leashHolder.Some?
      && !(s.leashHolder.value in t && s.leashHolder.value != s.id)
  }

  ghost predicate CreatedOnly(t: Table, snaps: seq<Snapshot>, n: nat, nextId: EntityId, first: EntityId,
                              registry: Registry)
    requires n <= |snaps|
  {
    Created(t, snaps, n, nextId, registry) && FirstFree(nextId, first, IdsOf(snaps[..n]))
  }

  /** So the next restore is refused too, unless this one failed at its very first entity. */
  lemma LeftoverIsEmpty(t: Table, snaps: seq<Snapshot>, n: nat, error: RestoreError, nextId: EntityId,
                        first: EntityId, registry: Registry)
    requires Leftover(t, snaps, n, error, nextId, first, registry)
    ensures t == map[] <==> n == 0 && (error.BadId? || error.BadBody?)
  {
    if n > 0 || error.BadVehicle? || error.BadLeash? {
      assert snaps[0].id in t by {
        if error.BadId? || error.BadBody? {
          assert CreatedAt(t, snaps, 0, nextId, registry);
        } else {
          assert IdsOf(snaps)[0] == snaps[0].id;
        }
      }
    } else {
      assert IdsOf(snaps[..0]) == [];
    }
  }

  /** The restored manager, which began at id `first`, goes on with the id the saved one would have used
      next just when that is `first` or the id before it is still in use; it starts lower, and hands out
      ids of removed entities again, just when it began lower and that last id is gone. */
  lemma RestoredNextId(t: Table, snaps: seq<Snapshot>, saved: EntityId, first: EntityId, restored: EntityId,
                       registry: Registry)
    requires saved > 0 && Captures(snaps, t) && FirstFree(restored, first, IdsOf(snaps))
    requires forall id {:trigger Fits(t, id, saved, registry)} :: id in t ==> Fits(t, id, saved, registry)
    ensures restored == saved <==> first <= saved && (first == saved || saved - 1 in t)
    ensures restored < saved <==> first < saved && saved - 1 !in t
  {
    forall id ensures id in IdsOf(snaps) <==> id in t && id < saved {
      if id in IdsOf(snaps) {
        var k :| 0 <= k < |snaps| && IdsOf(snaps)[k] == id;
        assert snaps[k].id in t && Fits(t, snaps[k].id, saved, registry);
      }
      assert id in t ==> Fits(t, id, saved, registry);
    }
  }

  /** So the restored table is the saved one exactly when every passenger list was in id order. */
  lemma RestoreIsExact(t: Table, t': Table, snaps: seq<Snapshot>)
    requires Forest(t) && Forest(t') && Captures(snaps, t) && Built(t', snaps, |snaps|, |snaps|)
    ensures t' == t <==> forall v :: v in t ==> Ascending(t[v].passengers)
  {
    RestoreReproduces(t, t', snaps);
    if forall v :: v in t ==> Ascending(t[v].passengers) {
      forall v | v in t
        ensures t'[v] == t[v]
      {
        AscendingIsUnique(t'[v].passengers, t[v].passengers);
      }
    }
  }

  // ---------------------------------------------------------------------------------------
  // The manager
  // ---------------------------------------------------------------------------------------

  class EntityManager {
    const registry: Registry
    var entities: Table
    var nextId: EntityId

    /** What every reachable manager keeps. */
    ghost predicate Valid()
      reads this
    {
      && Forest(entities)
      && nextId > 0
      && (forall id {:trigger Fits(entities, id, nextId, registry)} :: id in entities ==>
          Fits(entities, id, nextId, registry))
    }

    constructor Init(registry: Registry, firstId: EntityId)
      requires firstId > 0
      ensures Valid() && this.registry == registry && entities == map[] && nextId == firstId
    {
      this.registry := registry;
      entities := map[];
      nextId := firstId;
    }

    /** An unknown type is refused. */
    method Spawn(kind: nat) returns (id: Option<EntityId>)
      requires Valid()
      modifies this
      ensures Valid()
      ensures id.None? <==> registry(kind).None?
      ensures id.None? ==> entities == old(entities) && nextId == old(nextId)
      ensures id.Some? ==> id.value == old(nextId) && id.value !in old(entities) && nextId == old(nextId) + 1
      ensures id.Some? ==>
        var health := if registry(kind).value > 0 then registry(kind) else None;
        entities == old(entities)[id.value := Entity(Body(kind, health), None, [], None)]
    {
      if registry(kind).None? {
        return None;
      }
      var body := NewBody(kind, registry);
      forall q | q in entities
        ensures q < nextId
      {
        assert Fits(entities, q, nextId, registry);
      }
      SpawnKeepsForest(entities, nextId, body);
      assert forall q :: q in entities ==> Fits(entities, q, nextId, registry);
      entities := entities[nextId := Entity(body, None, [], None)];
      id := Some(nextId);
      nextId := nextId + 1;
    }

    method Dismount(p: EntityId) returns (done: bool)
      requires Valid()
      modifies this`entities
      ensures Valid()
      ensures done == (p in old(entities) && old(entities)[p].vehicle.Some?)
      ensures p in old(entities) ==> NoneDangling(old(entities), p)
      ensures entities == Dismounted(old(entities), p)
    {
      DismountKeepsForest(entities, p);
      if p !in entities || entities[p].vehicle.None? {
        return false;
      }
      var v := entities[p].vehicle.value;
      NobodyRidesItself(entities, p);
      entities := entities[v := entities[v].(passengers := Erase(entities[v].passengers, p))];
      entities := entities[p := entities[p].(vehicle := None)];
      StillFits(old(entities), entities, nextId, registry);
      done := true;
    }

    /** Mounting succeeds exactly when both exist and no cycle arises; a refused mount changes nothing. */
    method Mount(p: EntityId, v: EntityId) returns (done: bool)
      requires Valid()
      modifies this`entities
      ensures Valid()
      ensures done <==> p in old(entities) && v in old(entities) && Acyclic(LinksOf(old(entities))[p := v])
      ensures p in old(entities) ==> NoneDangling(old(entities), p)
      ensures entities == if done then Mounted(old(entities), p, v) else old(entities)
    {
      assert p in entities ==> NoneDangling(entities, p);
      if p !in entities || v !in entities || p == v {
        AncestorClosesCycle(LinksOf(entities), p, p, {p});
        return false;
      }
      var free := AboveIsFree(p, v);
      if !free {
        return false;
      }
      MountKeepsForest(entities, p, v);
      var _ := Dismount(p);
      entities := entities[p := entities[p].(vehicle := Some(v))];
      entities := entities[v := entities[v].(passengers := entities[v].passengers + [p])];
      StillFits(old(entities), entities, nextId, registry);
      done := true;
    }

    /** Walks up from `v` looking for `p`.  The walk meets no entity twice, so it ends. */
    method AboveIsFree(p: EntityId, v: EntityId) returns (free: bool)
      requires Valid() && p in entities && v in entities && p != v
      ensures free <==> Acyclic(LinksOf(entities)[p := v])
    {
      ghost var links := LinksOf(entities);
      ghost var below: set<EntityId> := {};
      var cursor := v;
      while entities[cursor].vehicle.Some?
        invariant cursor in entities && cursor !in below && below <= entities.Keys
        invariant p !in below && cursor != p && v in below + {cursor}
        invariant forall q :: q in below ==> q in links && links[q] in below + {cursor}
        decreases entities.Keys - below
      {
        var above := entities[cursor].vehicle.value;
        if above == p {
          AncestorClosesCycle(links, p, v, below + {cursor, p});
          return false;
        }
        assert NoneDangling(entities, cursor);
        assert HasTop(below + {cursor}, links);
        below := below + {cursor};
        cursor := above;
      }
      MountKeepsAcyclic(links, p, v, below + {cursor});
      free := true;
    }

    /** Removal dismounts the entity and its riders and releases whatever it held. */
    method Remove(id: EntityId) returns (done: bool)
      requires Valid()
      modifies this`entities
      ensures Valid()
      ensures done == (id in old(entities))
      ensures entities == if done then Without(old(entities), id) else old(entities)
    {
      if id !in entities {
        return false;
      }
      ghost var was := entities;
      Unseat(id);
      UnseatEnds(was, entities, id);
      RemoveKeepsForest(was, id);
      ReleaseLeashes(id);
      entities := entities - {id};
      assert entities == Without(was, id);
      StillFits(was, Without(was, id), nextId, registry);
      done := true;
    }

    method Unseat(id: EntityId)
      requires Valid() && id in entities
      modifies this`entities
      ensures Valid() && Unseated(old(entities), entities, id, old(entities)[id].passengers)
    {
      ghost var was := entities;
      DismountBeginsRemoval(was, id);
      var _ := Dismount(id);
      var riders := entities[id].passengers;
      for k := 0 to |riders|
        invariant Valid() && Unseated(was, entities, id, riders[..k])
      {
        UnseatStep(was, entities, id, k);
        var _ := Dismount(riders[k]);
      }
      assert riders[..|riders|] == riders;
    }

    method ReleaseLeashes(id: EntityId)
      modifies this`entities
      ensures entities == map q | q in old(entities) :: Released(old(entities)[q], id)
    {
      ghost var was := entities;
      var rest := entities.Keys;
      while rest != {}
        invariant rest <= entities.Keys == was.Keys
        invariant forall q :: q in was ==> entities[q] == if q in rest then was[q] else Released(was[q], id)
        decreases rest
      {
        var q :| q in rest;
        rest := rest - {q};
        if entities[q].leashHolder == Some(id) {
          entities := entities[q := entities[q].(leashHolder := None)];
        }
      }
    }

    /** Leashing needs an existing holder other than the entity itself. */
    method SetLeash(id: EntityId, holder: Option<EntityId>) returns (done: bool)
      requires Valid()
      modifies this`entities
      ensures Valid()
      ensures done == (id in old(entities) && (holder.Some? ==> holder.value != id && holder.value in old(entities)))
      ensures entities == if done then old(entities)[id := old(entities)[id].(leashHolder := holder)] else old(entities)
    {
      if id !in entities || (holder.Some? && (holder.value == id || holder.value !in entities)) {
        return false;
      }
      LeashKeepsForest(entities, id, holder);
      entities := entities[id := entities[id].(leashHolder := holder)];
      StillFits(old(entities), entities, nextId, registry);
      done := true;
    }

    /** One snapshot for each entity, in id order. */
    method Snapshots() returns (snaps: seq<Snapshot>)
      ensures Captures(snaps, entities)
    {
      snaps := [];
      var rest := entities.Keys;
      while rest != {}
        invariant rest <= entities.Keys
        invariant Captures(snaps, map id | id in entities && id !in rest :: entities[id])
        invariant forall k, id :: 0 <= k < |snaps| && id in rest ==> snaps[k].id < id
        decreases rest
      {
        var id := LeastId(rest);
        var e := entities[id];
        ghost var before := snaps;
        snaps := snaps + [Snapshot(id, e.body, e.vehicle, e.leashHolder)];
        assert IdsOf(snaps) == IdsOf(before) + [id];
        rest := rest - {id};
      }
      assert (map id | id in entities && id !in rest :: entities[id]) == entities;
    }

    /** First pass: all entities, without links. */
    method CreateAll(snaps: seq<Snapshot>) returns (error: Option<RestoreError>, ghost n: nat)
      requires Valid() && entities == map[]
      modifies this
      ensures Valid()
      ensures error.Some? ==> !Restorable(snaps, registry)
      ensures error.Some? ==> Leftover(entities, snaps, n, error.value, nextId, old(nextId), registry)
      ensures error.None? ==> Distinct(snaps) && Built(entities, snaps, 0, 0)
      ensures error.None? ==> FirstFree(nextId, old(nextId), IdsOf(snaps))
      ensures error.None? ==> forall k :: 0 <= k < |snaps| ==> snaps[k].id != 0 && BodyFits(snaps[k].body, registry)
    {
      for k := 0 to |snaps|
        invariant nextId > 0 && CreatedOnly(entities, snaps, k, nextId, old(nextId), registry)
      {
        CreatedSoFar(entities, snaps, k, nextId, registry);
        error := CreateOne(snaps, k, old(nextId));
        if error.Some? {
          n := k;
          CreatedIsSound(entities, snaps, k, nextId, registry);
          return;
        }
      }
      assert snaps[..|snaps|] == snaps;
      CreatedIsSound(entities, snaps, |snaps|, nextId, registry);
      CreatedEnds(entities, snaps, nextId, registry);
      error := None;
      n := |snaps|;
    }

    method CreateOne(snaps: seq<Snapshot>, k: nat, ghost first: EntityId) returns (error: Option<RestoreError>)
      requires k < |snaps| && nextId > 0 && CreatedOnly(entities, snaps, k, nextId, first, registry)
      modifies this`entities, this`nextId
      ensures
        error == if snaps[k].id == 0 || snaps[k].id in old(entities) then Some(BadId)
                 else if !BodyFits(snaps[k].body, registry) then Some(BadBody)
                 else None
      ensures error.Some? ==> entities == old(entities) && nextId == old(nextId)
      ensures error.None? ==> nextId > 0 && CreatedOnly(entities, snaps, k + 1, nextId, first, registry)
    {
      var s := snaps[k];
      if s.id == 0 || s.id in entities {
        return Some(BadId);
      }
      if !BodyFits(s.body, registry) {
        return Some(BadBody);
      }
      CreatedStep(entities, snaps, k, nextId, registry);
      entities := entities[s.id := Entity(s.body, None, [], None)];
      nextId := if nextId < s.id + 1 then s.id + 1 else nextId;
      assert IdsOf(snaps[..k + 1]) == IdsOf(snaps[..k]) + [s.id];
      error := None;
    }

    /** Second pass, one snapshot: its mount, then its leash. */
    method Link(snaps: seq<Snapshot>, m: nat, ghost first: EntityId) returns (error: Option<RestoreError>)
      requires Valid() && Distinct(snaps) && m < |snaps| && Built(entities, snaps, m, m)
      requires FirstFree(nextId, first, IdsOf(snaps))
      modifies this`entities
      ensures Valid()
      ensures error.Some? ==> !Restorable(snaps, registry)
      ensures error.Some? ==> Leftover(entities, snaps, m, error.value, nextId, first, registry)
      ensures error.None? ==> Built(entities, snaps, m + 1, m + 1) && LinksExist(snaps, m)
    {
      var s := snaps[m];
      var mounted := MountOne(snaps, m);
      if !mounted {
        return Some(BadVehicle);
      }
      LeashBuilds(entities, snaps, m);
      if s.leashHolder.Some? {
        var leashed := SetLeash(s.id, s.leashHolder);
        if !leashed {
          assert !LinksExist(snaps, m);
          return Some(BadLeash);
        }
      }
      error := None;
    }

    method MountOne(snaps: seq<Snapshot>, m: nat) returns (mounted: bool)
      requires Valid() && Distinct(snaps) && m < |snaps| && Built(entities, snaps, m, m)
      modifies this`entities
      ensures Valid()
      ensures
        var s := snaps[m];
        mounted == (s.vehicle.Some? ==>
          s.vehicle.value in old(entities) && Acyclic(LinksOf(old(entities))[s.id := s.vehicle.value]))
      ensures if mounted then Built(entities, snaps, m + 1, m) else entities == old(entities)
      ensures !mounted ==> !Restorable(snaps, registry)
      ensures mounted && snaps[m].vehicle.Some? ==> snaps[m].vehicle.value in IdsOf(snaps)
    {
      var s := snaps[m];
      mounted := true;
      assert BuiltAt(entities, snaps, m, m, m);
      ghost var was := entities;
      if s.vehicle.Some? {
        if Restorable(snaps, registry) {
          WantedMountAccepted(was, snaps, m, registry);
        }
        mounted := Mount(s.id, s.vehicle.value);
        assert mounted ==> HasTop({s.id}, LinksOf(was)[s.id := s.vehicle.value]);
      }
      if mounted {
        MountBuilds(was, snaps, m);
      }
    }

    /** Fills an empty manager.  Exactly the lists that describe a forest over their own ids are accepted; at
        the first snapshot that does not fit the manager stays as far as it got. */
    method Restore(snaps: seq<Snapshot>) returns (error: Option<RestoreError>, ghost n: nat)
      requires Valid()
      modifies this
      ensures Valid()
      ensures error.None? <==> old(entities) == map[] && Restorable(snaps, registry)
      ensures error.None? ==> Built(entities, snaps, |snaps|, |snaps|)
      ensures error.None? ==> FirstFree(nextId, old(nextId), IdsOf(snaps))
      ensures old(entities) != map[] ==> error == Some(NotEmpty) && entities == old(entities) && nextId == old(nextId)
      ensures old(entities) == map[] && error.Some? ==>
        Leftover(entities, snaps, n, error.value, nextId, old(nextId), registry)
    {
      n := 0;
      if entities != map[] {
        return Some(NotEmpty), 0;
      }
      error, n := CreateAll(snaps);
      if error.None? {
        error, n := LinkAll(snaps, old(nextId));
      }
    }

    method LinkAll(snaps: seq<Snapshot>, ghost first: EntityId) returns (error: Option<RestoreError>, ghost n: nat)
      requires Valid() && Distinct(snaps) && Built(entities, snaps, 0, 0) && FirstFree(nextId, first, IdsOf(snaps))
      requires forall k :: 0 <= k < |snaps| ==> snaps[k].id != 0 && BodyFits(snaps[k].body, registry)
      modifies this`entities
      ensures Valid()
      ensures error.None? <==> Restorable(snaps, registry)
      ensures error.None? ==> Built(entities, snaps, |snaps|, |snaps|)
      ensures error.Some? ==> Leftover(entities, snaps, n, error.value, nextId, first, registry)
    {
      for m := 0 to |snaps|
        invariant Valid() && Built(entities, snaps, m, m)
        invariant forall k :: 0 <= k < m ==> LinksExist(snaps, k)
      {
        error := Link(snaps, m, first);
        if error.Some? {
          n := m;
          return;
        }
      }
      assert snaps[..|snaps|] == snaps;
      error := None;
      n := |snaps|;
    }
  }

  method LeastId(ids: set<EntityId>) returns (least: EntityId)
    requires ids != {}
    ensures least in ids && forall id :: id in ids ==> least <= id
  {
    var rest := ids;
    least :| least in rest;
    rest := rest - {least};
    while rest != {}
      invariant rest <= ids && least in ids
      invariant forall id :: id in ids && id !in rest ==> least <= id
      decreases rest
    {
      var id :| id in rest;
      rest := rest - {id};
      if id < least {
        least := id;
      }
    }
  }
}
