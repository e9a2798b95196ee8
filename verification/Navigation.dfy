/** Grid navigation: `Navigation::find_path`, a bounded four-neighbour A* search.

    The open list is a priority queue that may hold several entries for one cell: a cell whose
    cost improves is pushed again and its old entry stays behind.  The order in which entries of
    equal score leave the queue is not fixed by the program, so `FindPath` picks any entry of
    least score. */
module Navigation {

  datatype BlockPosition = BlockPosition(x: int, y: int, z: int)

  /** What one call is asked: where from, where to, and which cells may be entered. */
  datatype Query = Query(start: BlockPosition, destination: BlockPosition, passable: BlockPosition -> bool)

  datatype OpenNode = OpenNode(position: BlockPosition, score: int)

  function Abs(n: int): nat {
    if n < 0 then -n else n
  }

  /** The search heuristic: Manhattan distance. */
  function Distance(left: BlockPosition, right: BlockPosition): nat {
    Abs(left.x - right.x) + Abs(left.y - right.y) + Abs(left.z - right.z)
  }

  /** The neighbour in the `d`-th of the four horizontal directions. */
  function Neighbour(p: BlockPosition, d: nat): BlockPosition
    requires d < 4
  {
    match d
    case 0 => BlockPosition(p.x + 1, p.y, p.z)
    case 1 => BlockPosition(p.x - 1, p.y, p.z)
    case 2 => BlockPosition(p.x, p.y, p.z + 1)
    case _ => BlockPosition(p.x, p.y, p.z - 1)
  }

  /** One horizontal step. */
  predicate Adjacent(p: BlockPosition, q: BlockPosition) {
    p.y == q.y && Abs(p.x - q.x) + Abs(p.z - q.z) == 1
  }

  /** A walk from the start of the query to `goal` over passable cells. */
  ghost predicate IsPath(path: seq<BlockPosition>, q: Query, goal: BlockPosition) {
    && |path| > 0
    && path[0] == q.start
    && path[|path| - 1] == goal
    && (forall i :: 0 <= i < |path| ==> q.passable(path[i]))
    && (forall i :: 0 <= i < |path| - 1 ==> Adjacent(path[i], path[i + 1]))
  }

  lemma NeighboursAreAdjacent(p: BlockPosition, r: BlockPosition)
    ensures Adjacent(p, r) <==>
            r == Neighbour(p, 0) || r == Neighbour(p, 1) || r == Neighbour(p, 2) || r == Neighbour(p, 3)
  {
  }

  /** No path is shorter than the Manhattan distance between two of its cells. */
  lemma {:induction false} DistanceAlongPath(path: seq<BlockPosition>, q: Query, goal: BlockPosition, i: nat)
    requires IsPath(path, q, goal)
    requires i < |path|
    ensures Distance(path[i], goal) <= |path| - 1 - i
    decreases |path| - i
  {
    if i < |path| - 1 {
      assert Adjacent(path[i], path[i + 1]);
      DistanceAlongPath(path, q, goal, i + 1);
    }
  }

  /** On level ground without obstacles it is the length of a path: one step closer is always possible. */
  lemma DistanceIsAttained(p: BlockPosition, goal: BlockPosition)
    ensures Distance(p, goal) == 0 <==> p == goal
    ensures p.y == goal.y && p != goal ==> exists n :: Adjacent(p, n) && Distance(n, goal) + 1 == Distance(p, goal)
  {
    if p.y == goal.y && p != goal {
      var n := if p.x < goal.x then Neighbour(p, 0) else if p.x > goal.x then Neighbour(p, 1)
               else if p.z < goal.z then Neighbour(p, 2) else Neighbour(p, 3);
      assert Adjacent(p, n) && Distance(n, goal) + 1 == Distance(p, goal);
    }
  }

  // ---------------------------------------------------------------------------------------
  // Invariants of the search
  // ---------------------------------------------------------------------------------------

  type Costs = map<BlockPosition, nat>
  type Links = map<BlockPosition, BlockPosition>
  type Routes = map<BlockPosition, seq<BlockPosition>>

  function Exact(p: BlockPosition, cost: Costs, q: Query): OpenNode
    requires p in cost
  {
    OpenNode(p, cost[p] + Distance(p, q.destination))
  }

  /** Every passable neighbour of `p` is known at a cost at most one above that of `p`. */
  ghost predicate Relaxed(p: BlockPosition, cost: Costs, q: Query, upTo: nat)
    requires p in cost && upTo <= 4
  {
    forall d: nat {:trigger Neighbour(p, d)} :: d < upTo && q.passable(Neighbour(p, d)) ==>
      Neighbour(p, d) in cost && cost[Neighbour(p, d)] <= cost[p] + 1
  }

  /** Every known cell has a route of exactly its cost. */
  ghost predicate Realized(cost: Costs, routes: Routes, q: Query) {
    && routes.Keys == cost.Keys
    && forall p {:trigger RouteOf(p, cost, routes, q)} :: p in cost ==> RouteOf(p, cost, routes, q)
  }

  ghost predicate RouteOf(p: BlockPosition, cost: Costs, routes: Routes, q: Query)
    requires p in cost && p in routes
  {
    IsPath(routes[p], q, p) && |routes[p]| == cost[p] + 1
  }

  ghost predicate Linked(p: BlockPosition, cost: Costs, previous: Links)
    requires p in cost
  {
    && p in previous && previous[p] in cost
    && cost[previous[p]] + 1 <= cost[p] && Adjacent(previous[p], p)
  }

  /** Costs fall strictly along the back links, down to the start at cost 0. */
  ghost predicate LinksDescend(cost: Costs, previous: Links, q: Query) {
    && q.start in cost && cost[q.start] == 0
    && forall p {:trigger Linked(p, cost, previous)} :: p in cost && p != q.start ==> Linked(p, cost, previous)
  }

  /** An entry is never cheaper than its cell's current cost allows. */
  ghost predicate EntrySound(o: OpenNode, cost: Costs, q: Query) {
    o.position in cost && o.score >= Exact(o.position, cost, q).score
  }

  ghost predicate EntriesSound(open: multiset<OpenNode>, cost: Costs, q: Query) {
    forall o {:trigger EntrySound(o, cost, q)} :: o in open ==> EntrySound(o, cost, q)
  }

  /** `p` waits in the open list at its current cost, or it has been expanded. */
  ghost predicate Handled(p: BlockPosition, open: multiset<OpenNode>, cost: Costs, q: Query)
    requires p in cost
  {
    Exact(p, cost, q) in open || (p != q.destination && Relaxed(p, cost, q, 4))
  }

  ghost predicate Frontier(open: multiset<OpenNode>, cost: Costs, q: Query) {
    forall p {:trigger Handled(p, open, cost, q)} :: p in cost ==> Handled(p, open, cost, q)
  }

  /** `c` is the least cost of reaching `p`, and `p` lies no deeper than any complete path. */
  ghost predicate Final(p: BlockPosition, c: nat, q: Query) {
    && (forall w :: IsPath(w, q, p) ==> c <= |w| - 1)
    && (forall w :: IsPath(w, q, q.destination) ==> c + Distance(p, q.destination) <= |w| - 1)
  }

  ghost predicate Settled(p: BlockPosition, cost: Costs, q: Query) {
    p in cost && Relaxed(p, cost, q, 4) && Final(p, cost[p], q)
  }

  ghost predicate ClosedFinal(closed: set<BlockPosition>, cost: Costs, q: Query) {
    forall p {:trigger Settled(p, cost, q)} :: p in closed ==> Settled(p, cost, q)
  }

  ghost predicate FrontierBut(except: BlockPosition, open: multiset<OpenNode>, cost: Costs, q: Query) {
    forall p {:trigger Handled(p, open, cost, q)} :: p in cost && p != except ==> Handled(p, open, cost, q)
  }

  ghost predicate SearchInvariant(open: multiset<OpenNode>, cost: Costs, previous: Links,
                                  routes: Routes, closed: set<BlockPosition>, q: Query) {
    && Realized(cost, routes, q)
    && LinksDescend(cost, previous, q)
    && EntriesSound(open, cost, q)
    && Frontier(open, cost, q)
    && ClosedFinal(closed, cost, q)
  }

  // ---------------------------------------------------------------------------------------
  // Optimality at the moment a cell is taken from the open list
  // ---------------------------------------------------------------------------------------

  /** Along any path some cell is known at no more than its position on the path, and it either
      waits in the open list at that cost or is the path's end. */
  lemma {:induction false} PathMeetsFrontier(w: seq<BlockPosition>, goal: BlockPosition, i: nat,
                                             open: multiset<OpenNode>, cost: Costs, q: Query)
    returns (j: nat)
    requires IsPath(w, q, goal)
    requires Frontier(open, cost, q)
    requires i < |w| && w[i] in cost && cost[w[i]] <= i
    ensures i <= j < |w| && w[j] in cost && cost[w[j]] <= j
    ensures j == |w| - 1 || Exact(w[j], cost, q) in open
    decreases |w| - i
  {
    if i == |w| - 1 || Exact(w[i], cost, q) in open {
      j := i;
    } else {
      assert Handled(w[i], open, cost, q);
      NeighboursAreAdjacent(w[i], w[i + 1]);
      j := PathMeetsFrontier(w, goal, i + 1, open, cost, q);
    }
  }

  /** The cell of a least entry has its optimal cost, and that entry's score is at most the length
      of any path to the destination. */
  lemma LeastEntryIsOptimal(o: OpenNode, open: multiset<OpenNode>, cost: Costs, q: Query)
    requires EntriesSound(open, cost, q) && Frontier(open, cost, q)
    requires q.start in cost && cost[q.start] == 0
    requires o in open && forall other :: other in open ==> o.score <= other.score
    ensures EntrySound(o, cost, q)
    ensures Final(o.position, cost[o.position], q)
  {
    assert EntrySound(o, cost, q);
    forall w | IsPath(w, q, o.position)
      ensures cost[o.position] <= |w| - 1
    {
      var j := PathMeetsFrontier(w, o.position, 0, open, cost, q);
      DistanceAlongPath(w, q, o.position, j);
      Triangle(w[j], o.position, q.destination);
    }
    forall w | IsPath(w, q, q.destination)
      ensures cost[o.position] + Distance(o.position, q.destination) <= |w| - 1
    {
      var j := PathMeetsFrontier(w, q.destination, 0, open, cost, q);
      assert Handled(w[j], open, cost, q);
      DistanceAlongPath(w, q, q.destination, j);
    }
  }

  lemma Triangle(a: BlockPosition, b: BlockPosition, c: BlockPosition)
    ensures Distance(a, c) <= Distance(a, b) + Distance(b, c)
  {
  }

  lemma LeastOf(open: multiset<OpenNode>) returns (least: OpenNode)
    requires open != multiset{}
    ensures least in open && forall other :: other in open ==> least.score <= other.score
    decreases |open|
  {
    var o :| o in open;
    var rest := open - multiset{o};
    least := o;
    if rest != multiset{} {
      var r := LeastOf(rest);
      least := if o.score <= r.score then o else r;
    }
    forall other | other in open
      ensures least.score <= other.score
    {
      assert other == o || other in rest;
    }
  }

  // ---------------------------------------------------------------------------------------
  // One relaxation
  // ---------------------------------------------------------------------------------------

  ghost predicate Improves(next: BlockPosition, nextCost: nat, cost: Costs) {
    next !in cost || nextCost < cost[next]
  }

  /** A cheaper route to `next` cannot lead to a closed cell or back to the start. */
  lemma ImprovedIsNew(next: BlockPosition, current: BlockPosition, cost: Costs, routes: Routes,
                      closed: set<BlockPosition>, q: Query)
    requires Realized(cost, routes, q) && ClosedFinal(closed, cost, q)
    requires q.start in cost && cost[q.start] == 0
    requires current in cost && Adjacent(current, next) && q.passable(next)
    requires Improves(next, cost[current] + 1, cost)
    ensures next !in closed && next != q.start
    ensures IsPath(routes[current] + [next], q, next)
  {
    var route := routes[current] + [next];
    assert RouteOf(current, cost, routes, q);
    assert IsPath(route, q, next);
    assert forall p :: p in closed ==> Settled(p, cost, q);
  }

  lemma RelaxKeepsRoutes(cost: Costs, routes: Routes, q: Query, current: BlockPosition, next: BlockPosition)
    requires Realized(cost, routes, q)
    requires current in cost && IsPath(routes[current] + [next], q, next)
    ensures Realized(cost[next := cost[current] + 1], routes[next := routes[current] + [next]], q)
  {
    assert RouteOf(current, cost, routes, q);
    forall p | p in cost
      ensures RouteOf(p, cost, routes, q)
    {
    }
  }

  lemma RelaxKeepsLinks(cost: Costs, previous: Links, q: Query, current: BlockPosition, next: BlockPosition)
    requires LinksDescend(cost, previous, q)
    requires current in cost && Adjacent(current, next) && next != q.start
    requires Improves(next, cost[current] + 1, cost)
    ensures LinksDescend(cost[next := cost[current] + 1], previous[next := current], q)
  {
    forall p | p in cost && p != q.start && p != next
      ensures Linked(p, cost[next := cost[current] + 1], previous[next := current])
    {
      assert Linked(p, cost, previous);
    }
  }

  lemma RelaxKeepsEntries(open: multiset<OpenNode>, cost: Costs, q: Query, current: BlockPosition, next: BlockPosition)
    requires EntriesSound(open, cost, q)
    requires current in cost && Improves(next, cost[current] + 1, cost)
    ensures
      var cost' := cost[next := cost[current] + 1];
      EntriesSound(open + multiset{Exact(next, cost', q)}, cost', q)
  {
    var cost' := cost[next := cost[current] + 1];
    var e := Exact(next, cost', q);
    forall o | o in open + multiset{e}
      ensures EntrySound(o, cost', q)
    {
      assert o in open || o == e;
      assert o in open ==> EntrySound(o, cost, q);
    }
  }

  lemma RelaxKeepsClosed(closed: set<BlockPosition>, cost: Costs, q: Query, current: BlockPosition, next: BlockPosition)
    requires ClosedFinal(closed, cost, q)
    requires current in cost && next !in closed && Improves(next, cost[current] + 1, cost)
    ensures ClosedFinal(closed, cost[next := cost[current] + 1], q)
  {
    forall p | p in closed
      ensures Settled(p, cost[next := cost[current] + 1], q)
    {
      assert Settled(p, cost, q);
    }
  }

  lemma RelaxKeepsExpanded(open: multiset<OpenNode>, cost: Costs, q: Query, current: BlockPosition, next: BlockPosition)
    requires current in cost && Improves(next, cost[current] + 1, cost)
    requires FrontierBut(current, open, cost, q)
    ensures
      var cost' := cost[next := cost[current] + 1];
      FrontierBut(current, open + multiset{Exact(next, cost', q)}, cost', q)
  {
    var cost' := cost[next := cost[current] + 1];
    forall p | p in cost' && p != current
      ensures Handled(p, open + multiset{Exact(next, cost', q)}, cost', q)
    {
      assert p != next ==> Handled(p, open, cost, q);
    }
  }

  // ---------------------------------------------------------------------------------------
  // The search
  // ---------------------------------------------------------------------------------------

  /** `c` can be reached so cheaply that a path through it to the destination could take `k` steps. */
  ghost predicate Within(c: BlockPosition, q: Query, k: int) {
    exists w :: IsPath(w, q, c) && |w| - 1 + Distance(c, q.destination) <= k
  }

  ghost predicate CoversSearch(region: set<BlockPosition>, q: Query, k: int) {
    forall c :: Within(c, q, k) ==> c in region
  }

  /** The state between two relaxations: `current` has been taken and its first `d` neighbours done. */
  ghost predicate Expanding(open: multiset<OpenNode>, cost: Costs, previous: Links, routes: Routes,
                            closed: set<BlockPosition>, q: Query, current: BlockPosition, d: nat)
    requires d <= 4
  {
    && Realized(cost, routes, q)
    && LinksDescend(cost, previous, q)
    && EntriesSound(open, cost, q)
    && ClosedFinal(closed, cost, q)
    && FrontierBut(current, open, cost, q)
    && current in cost && current != q.destination && Final(current, cost[current], q)
    && Relaxed(current, cost, q, d)
  }

  lemma TakingBeginsExpansion(top: OpenNode, open: multiset<OpenNode>, cost: Costs, previous: Links, routes: Routes,
                              closed: set<BlockPosition>, q: Query)
    requires SearchInvariant(open, cost, previous, routes, closed, q)
    requires top in open && forall other :: other in open ==> top.score <= other.score
    requires top.position != q.destination
    ensures Expanding(open - multiset{top}, cost, previous, routes, closed, q, top.position, 0)
  {
    LeastEntryIsOptimal(top, open, cost, q);
    forall o | o in open - multiset{top}
      ensures EntrySound(o, cost, q)
    {
      assert o in open;
    }
    forall p | p in cost && p != top.position
      ensures Handled(p, open - multiset{top}, cost, q)
    {
      assert Handled(p, open, cost, q);
    }
  }

  lemma RelaxingKeepsExpansion(open: multiset<OpenNode>, cost: Costs, previous: Links, routes: Routes,
                               closed: set<BlockPosition>, q: Query, current: BlockPosition, d: nat)
    requires d < 4 && Expanding(open, cost, previous, routes, closed, q, current, d)
    requires q.passable(Neighbour(current, d)) && Improves(Neighbour(current, d), cost[current] + 1, cost)
    ensures current !in closed
    ensures
      var next := Neighbour(current, d);
      var cost' := cost[next := cost[current] + 1];
      Expanding(open + multiset{Exact(next, cost', q)}, cost', previous[next := current],
                routes[next := routes[current] + [next]], closed, q, current, d + 1)
  {
    var next := Neighbour(current, d);
    NeighboursAreAdjacent(current, next);
    assert forall p :: p in closed ==> Settled(p, cost, q);
    ImprovedIsNew(next, current, cost, routes, closed, q);
    RelaxKeepsRoutes(cost, routes, q, current, next);
    RelaxKeepsLinks(cost, previous, q, current, next);
    RelaxKeepsEntries(open, cost, q, current, next);
    RelaxKeepsClosed(closed, cost, q, current, next);
    RelaxKeepsExpanded(open, cost, q, current, next);
  }

  lemma ExpansionEnds(open: multiset<OpenNode>, cost: Costs, previous: Links, routes: Routes,
                      closed: set<BlockPosition>, q: Query, current: BlockPosition)
    requires Expanding(open, cost, previous, routes, closed, q, current, 4)
    ensures SearchInvariant(open, cost, previous, routes, closed + {current}, q)
  {
    forall p | p in cost
      ensures Handled(p, open, cost, q)
    {
    }
  }

  // ---------------------------------------------------------------------------------------
  // The search as a relation between open lists and costs
  // ---------------------------------------------------------------------------------------

  datatype Search = Search(open: multiset<OpenNode>, cost: Costs)

  ghost predicate Least(o: OpenNode, open: multiset<OpenNode>) {
    o in open && forall other :: other in open ==> o.score <= other.score
  }

  /** `n` can be entered from `p` more cheaply than known so far. */
  ghost predicate Betters(p: BlockPosition, n: BlockPosition, cost: Costs, q: Query)
    requires p in cost
  {
    Adjacent(p, n) && q.passable(n) && Improves(n, cost[p] + 1, cost)
  }

  /** The entry for `n` as a neighbour of `p`. */
  ghost predicate EntryFrom(p: BlockPosition, o: OpenNode, cost: Costs, q: Query)
    requires p in cost
  {
    o.score == cost[p] + 1 + Distance(o.position, q.destination)
  }

  /** All cells that are cheaper to enter from `p` get that cost and one entry each; nothing else changes. */
  ghost predicate Relaxes(s: Search, p: BlockPosition, s': Search, q: Query) {
    && p in s.cost
    && (forall n :: n in s'.cost <==> n in s.cost || Betters(p, n, s.cost, q))
    && (forall n :: n in s'.cost ==> s'.cost[n] == if Betters(p, n, s.cost, q) then s.cost[p] + 1 else s.cost[n])
    && (forall o :: s'.open[o] ==
          s.open[o] + if Betters(p, o.position, s.cost, q) && EntryFrom(p, o, s.cost, q) then 1 else 0)
  }

  /** A least entry is taken that is not for the destination, and its cell relaxed. */
  ghost predicate Pops(s: Search, top: OpenNode, s': Search, q: Query) {
    && Least(top, s.open) && top.position != q.destination
    && Relaxes(s.(open := s.open - multiset{top}), top.position, s', q)
  }

  ghost function FirstSearch(q: Query): Search {
    Search(multiset{OpenNode(q.start, Distance(q.start, q.destination))}, map[q.start := 0])
  }

  /** The states of a search that has taken the entries `tops`. */
  ghost predicate IsRun(q: Query, run: seq<Search>, tops: seq<OpenNode>) {
    && |run| == |tops| + 1 && run[0] == FirstSearch(q)
    && forall i :: 0 <= i < |tops| ==> Pops(run[i], tops[i], run[i + 1], q)
  }

  /** The next entry such a search takes may be one for the destination. */
  ghost predicate Arrives(q: Query, run: seq<Search>) {
    run != [] && exists top :: Least(top, run[|run| - 1].open) && top.position == q.destination
  }

  /** One of the first `d` neighbours. */
  predicate Before(p: BlockPosition, n: BlockPosition, d: nat) {
    || (d > 0 && n == Neighbour(p, 0)) || (d > 1 && n == Neighbour(p, 1))
    || (d > 2 && n == Neighbour(p, 2)) || (d > 3 && n == Neighbour(p, 3))
  }

  /** The first `d` neighbours have been relaxed. */
  ghost predicate PartlyRelaxes(s: Search, p: BlockPosition, s': Search, q: Query, d: nat) {
    && p in s.cost
    && (forall n :: n in s'.cost <==> n in s.cost || (Before(p, n, d) && Betters(p, n, s.cost, q)))
    && (forall n :: n in s'.cost ==>
          s'.cost[n] == if Before(p, n, d) && Betters(p, n, s.cost, q) then s.cost[p] + 1 else s.cost[n])
    && (forall o :: s'.open[o] == s.open[o] +
          if Before(p, o.position, d) && Betters(p, o.position, s.cost, q) && EntryFrom(p, o, s.cost, q) then 1 else 0)
  }

  lemma NeighboursApart(p: BlockPosition, d: nat)
    requires d < 4
    ensures Adjacent(p, Neighbour(p, d)) && !Before(p, Neighbour(p, d), d) && p != Neighbour(p, d)
    ensures forall n :: Before(p, n, d + 1) <==> Before(p, n, d) || n == Neighbour(p, d)
  {
  }

  /** Neighbour `d` is relaxed, or left alone. */
  ghost function Relaxing(s: Search, p: BlockPosition, q: Query, d: nat): Search
    requires d < 4 && p in s.cost
  {
    var n, c := Neighbour(p, d), s.cost[p] + 1;
    if q.passable(n) && Improves(n, c, s.cost) then
      Search(s.open + multiset{OpenNode(n, c + Distance(n, q.destination))}, s.cost[n := c])
    else s
  }

  lemma RelaxNext(s: Search, p: BlockPosition, s': Search, q: Query, d: nat)
    requires d < 4 && PartlyRelaxes(s, p, s', q, d)
    ensures p in s'.cost && s'.cost[p] == s.cost[p]
    ensures PartlyRelaxes(s, p, Relaxing(s', p, q, d), q, d + 1)
  {
    NeighboursApart(p, d);
    assert !Adjacent(p, p);
    assert Betters(p, Neighbour(p, d), s.cost, q) <==>
           q.passable(Neighbour(p, d)) && Improves(Neighbour(p, d), s.cost[p] + 1, s'.cost);
  }

  lemma RelaxedAll(s: Search, p: BlockPosition, s': Search, q: Query)
    requires PartlyRelaxes(s, p, s', q, 4)
    ensures Relaxes(s, p, s', q)
  {
    forall n ensures Before(p, n, 4) <==> Adjacent(p, n) {
      NeighboursAreAdjacent(p, n);
    }
  }

  /** A cell known at cost `c` became known after at least `c` entries were taken. */
  lemma CostsGrowByOne(s: Search, p: BlockPosition, s': Search, q: Query, visited: nat)
    requires Relaxes(s, p, s', q) && forall n :: n in s.cost ==> s.cost[n] <= visited
    ensures forall n :: n in s'.cost ==> s'.cost[n] <= visited + 1
  {
  }

  /** The program has made this run, in which no cell is costlier than the number of entries taken. */
  ghost predicate Made(q: Query, run: seq<Search>, tops: seq<OpenNode>, s: Search) {
    IsRun(q, run, tops) && run[|tops|] == s && forall n :: n in s.cost ==> s.cost[n] <= |tops|
  }

  lemma MadeOneMore(q: Query, run: seq<Search>, tops: seq<OpenNode>, s: Search, top: OpenNode, s': Search)
    requires Made(q, run, tops, s) && Pops(s, top, s', q)
    ensures Made(q, run + [s'], tops + [top], s')
  {
    CostsGrowByOne(s.(open := s.open - multiset{top}), top.position, s', q, |tops|);
  }

  /** Relaxes the four neighbours of `current`.  A cell that was closed before yields no new entry. */
  method Expand(q: Query, current: BlockPosition, openIn: multiset<OpenNode>, costIn: Costs, previousIn: Links,
                ghost routesIn: Routes, ghost closed: set<BlockPosition>)
    returns (open: multiset<OpenNode>, cost: Costs, previous: Links, ghost routes: Routes)
    requires Expanding(openIn, costIn, previousIn, routesIn, closed, q, current, 0)
    ensures SearchInvariant(open, cost, previous, routes, closed + {current}, q)
    ensures |open| <= |openIn| + (if current in closed then 0 else 4)
    ensures Relaxes(Search(openIn, costIn), current, Search(open, cost), q)
  {
    open, cost, previous, routes := openIn, costIn, previousIn, routesIn;
    ghost var before := Search(openIn, costIn);
    var d := 0;
    while d < 4
      invariant 0 <= d <= 4
      invariant Expanding(open, cost, previous, routes, closed, q, current, d)
      invariant |open| <= |openIn| + (if current in closed then 0 else d)
      invariant PartlyRelaxes(before, current, Search(open, cost), q, d)
    {
      RelaxNext(before, current, Search(open, cost), q, d);
      open, cost, previous, routes := RelaxOne(q, current, d, open, cost, previous, routes, closed);
      d := d + 1;
    }
    ExpansionEnds(open, cost, previous, routes, closed, q, current);
    RelaxedAll(before, current, Search(open, cost), q);
  }

  /** The body of the loop: one neighbour. */
  method RelaxOne(q: Query, current: BlockPosition, d: nat, openIn: multiset<OpenNode>, costIn: Costs,
                  previousIn: Links, ghost routesIn: Routes, ghost closed: set<BlockPosition>)
    returns (open: multiset<OpenNode>, cost: Costs, previous: Links, ghost routes: Routes)
    requires d < 4 && Expanding(openIn, costIn, previousIn, routesIn, closed, q, current, d)
    ensures Expanding(open, cost, previous, routes, closed, q, current, d + 1)
    ensures |open| <= |openIn| + (if current in closed then 0 else 1)
    ensures Search(open, cost) == Relaxing(Search(openIn, costIn), current, q, d)
  {
    open, cost, previous, routes := openIn, costIn, previousIn, routesIn;
    var next := Neighbour(current, d);
    if q.passable(next) {
      var nextCost := cost[current] + 1;
      if next !in cost || nextCost < cost[next] {
        RelaxingKeepsExpansion(open, cost, previous, routes, closed, q, current, d);
        routes := routes[next := routes[current] + [next]];
        cost := cost[next := nextCost];
        previous := previous[next := current];
        open := open + multiset{OpenNode(next, nextCost + Distance(next, q.destination))};
      }
    }
  }

  /** The entry taken is one for the destination. */
  method Arrive(q: Query, ghost top: OpenNode, ghost open: multiset<OpenNode>, cost: Costs, previous: Links,
                ghost routes: Routes, ghost closed: set<BlockPosition>)
    returns (path: seq<BlockPosition>)
    requires SearchInvariant(open, cost, previous, routes, closed, q)
    requires Least(top, open) && top.position == q.destination
    ensures q.destination in cost && path != [] && |path| <= cost[q.destination] + 1
    ensures IsPath(path, q, q.destination) && forall w :: IsPath(w, q, q.destination) ==> |path| <= |w|
  {
    LeastEntryIsOptimal(top, open, cost, q);
    path := Reconstruct(q.destination, cost, previous, routes, q);
  }

  /** One entry is taken and its cell expanded. */
  method TakeOne(q: Query, top: OpenNode, openIn: multiset<OpenNode>, costIn: Costs, previousIn: Links,
                 ghost routesIn: Routes, ghost closed: set<BlockPosition>)
    returns (open: multiset<OpenNode>, cost: Costs, previous: Links, ghost routes: Routes)
    requires SearchInvariant(openIn, costIn, previousIn, routesIn, closed, q)
    requires Least(top, openIn) && top.position != q.destination
    ensures SearchInvariant(open, cost, previous, routes, closed + {top.position}, q)
    ensures |open| + 1 + 4 * |closed| <= |openIn| + 4 * |closed + {top.position}|
    ensures Pops(Search(openIn, costIn), top, Search(open, cost), q)
  {
    TakingBeginsExpansion(top, openIn, costIn, previousIn, routesIn, closed, q);
    var rest := openIn - multiset{top};
    open, cost, previous, routes := Expand(q, top.position, rest, costIn, previousIn, routesIn, closed);
  }

  method FindPath(q: Query, maxVisited: nat)
    returns (path: seq<BlockPosition>, ghost run: seq<Search>, ghost tops: seq<OpenNode>)
    // soundness
    ensures path != [] ==> IsPath(path, q, q.destination)
    // optimality
    ensures path != [] ==> forall w :: IsPath(w, q, q.destination) ==> |path| <= |w|
    // the search: it takes least entries until one is for the destination, none is left, or the budget is spent
    ensures IsRun(q, run, tops) && |tops| <= maxVisited
    ensures path != [] ==> Arrives(q, run) && |path| <= |tops| + 1 <= maxVisited
    ensures path == [] && q.passable(q.start) && q.passable(q.destination) ==>
      run[|tops|].open == multiset{} || |tops| == maxVisited
    // completeness: with budget left there is no path, and a path that exists is missed only for want of budget
    ensures path == [] && |tops| < maxVisited ==> forall w :: !IsPath(w, q, q.destination)
    ensures path == [] ==> forall w, region: set<BlockPosition> ::
      IsPath(w, q, q.destination) && CoversSearch(region, q, |w| - 1) ==> maxVisited <= 4 * |region|
  {
    run, tops := [FirstSearch(q)], [];
    if maxVisited == 0 || !q.passable(q.start) || !q.passable(q.destination) {
      path := [];
      return;
    }
    var open: multiset<OpenNode> := multiset{OpenNode(q.start, Distance(q.start, q.destination))};
    var cost: Costs := map[q.start := 0];
    var previous: Links := map[];
    var visited := 0;
    ghost var routes: Routes := map[q.start := [q.start]];
    ghost var closed: set<BlockPosition> := {};
    assert SearchInvariant(open, cost, previous, routes, closed, q);
    while open != multiset{} && visited < maxVisited
      invariant SearchInvariant(open, cost, previous, routes, closed, q)
      invariant visited + |open| <= 1 + 4 * |closed|
      invariant |tops| == visited <= maxVisited && Made(q, run, tops, Search(open, cost))
      decreases maxVisited - visited
    {
      visited := visited + 1;
      ghost var least := LeastOf(open);
      var top :| top in open && forall other :: other in open ==> top.score <= other.score;
      var current := top.position;
      if current == q.destination {
        assert Least(top, run[|run| - 1].open);
        path := Arrive(q, top, open, cost, previous, routes, closed);
        return;
      }
      ghost var s := Search(open, cost);
      open, cost, previous, routes := TakeOne(q, top, open, cost, previous, routes, closed);
      MadeOneMore(q, run, tops, s, top, Search(open, cost));
      closed := closed + {current};
      run, tops := run + [Search(open, cost)], tops + [top];
    }
    path := [];
    NothingMissed(open, cost, previous, routes, closed, q, visited, maxVisited);
  }

  /** A search that stopped empty-handed has missed no path but for want of budget. */
  lemma NothingMissed(open: multiset<OpenNode>, cost: Costs, previous: Links, routes: Routes,
                      closed: set<BlockPosition>, q: Query, visited: nat, maxVisited: nat)
    requires SearchInvariant(open, cost, previous, routes, closed, q)
    requires visited + |open| <= 1 + 4 * |closed| && (open == multiset{} || visited == maxVisited)
    ensures open == multiset{} ==> forall w :: !IsPath(w, q, q.destination)
    ensures forall w, region: set<BlockPosition> ::
      IsPath(w, q, q.destination) && CoversSearch(region, q, |w| - 1) ==> maxVisited <= 4 * |region|
  {
    forall w | IsPath(w, q, q.destination)
      ensures open != multiset{}
    {
      ExhaustedOrDisconnected(w, open, cost, previous, routes, closed, q);
    }
    forall w, region: set<BlockPosition> | IsPath(w, q, q.destination) && CoversSearch(region, q, |w| - 1)
      ensures maxVisited <= 4 * |region|
    {
      ClosedWithin(w, region, open, cost, previous, routes, closed, q);
    }
  }

  /** If a path exists, a search that stopped empty-handed still has entries waiting. */
  lemma ExhaustedOrDisconnected(w: seq<BlockPosition>, open: multiset<OpenNode>, cost: Costs, previous: Links,
                                routes: Routes, closed: set<BlockPosition>, q: Query)
    requires SearchInvariant(open, cost, previous, routes, closed, q)
    requires IsPath(w, q, q.destination)
    ensures open != multiset{}
  {
    var j := PathMeetsFrontier(w, q.destination, 0, open, cost, q);
    assert Handled(w[j], open, cost, q);
  }

  /** Only cells that could lie on a path as short as `w` are ever expanded. */
  lemma ClosedWithin(w: seq<BlockPosition>, region: set<BlockPosition>, open: multiset<OpenNode>, cost: Costs,
                     previous: Links, routes: Routes, closed: set<BlockPosition>, q: Query)
    requires SearchInvariant(open, cost, previous, routes, closed, q)
    requires IsPath(w, q, q.destination) && CoversSearch(region, q, |w| - 1)
    ensures |closed| <= |region|
  {
    forall c | c in closed
      ensures c in region
    {
      assert Settled(c, cost, q) && RouteOf(c, cost, routes, q);
      assert IsPath(routes[c], q, c);
      assert Within(c, q, |w| - 1);
    }
    SubsetSize(closed, region);
  }

  lemma {:induction false} SubsetSize<T>(a: set<T>, b: set<T>)
    requires a <= b
    ensures |a| <= |b|
  {
    if a != {} {
      var x :| x in a;
      SubsetSize(a - {x}, b - {x});
    }
  }

  /** Follows the back links from `goal`; the cost falls at every link, so the walk ends. */
  method Reconstruct(goal: BlockPosition, cost: Costs, previous: Links, ghost routes: Routes, q: Query)
    returns (path: seq<BlockPosition>)
    requires Realized(cost, routes, q) && LinksDescend(cost, previous, q)
    requires goal in cost
    ensures IsPath(path, q, goal) && |path| <= cost[goal] + 1
  {
    var reversed := [goal];
    var cursor := goal;
    assert RouteOf(goal, cost, routes, q);
    while cursor != q.start
      invariant cursor in cost && |reversed| > 0
      invariant reversed[0] == goal && reversed[|reversed| - 1] == cursor
      invariant forall i :: 0 <= i < |reversed| ==> q.passable(reversed[i])
      invariant forall i :: 0 <= i < |reversed| - 1 ==> Adjacent(reversed[i + 1], reversed[i])
      invariant |reversed| + cost[cursor] <= cost[goal] + 1
      decreases cost[cursor]
    {
      assert Linked(cursor, cost, previous);
      cursor := previous[cursor];
      assert RouteOf(cursor, cost, routes, q);
      reversed := reversed + [cursor];
    }
    path := seq(|reversed|, i requires 0 <= i < |reversed| => reversed[|reversed| - 1 - i]);
    forall i | 0 <= i < |path| - 1
      ensures Adjacent(path[i], path[i + 1])
    {
      assert Adjacent(reversed[|reversed| - 2 - i + 1], reversed[|reversed| - 2 - i]);
    }
  }

  // ---------------------------------------------------------------------------------------
  // Consequences for callers
  // ---------------------------------------------------------------------------------------

  /** Budget enough for every open route of `k` steps: in an unbounded world it suffices that it
      exceeds four times the cells of the Manhattan ellipse around the two endpoints. */
  lemma EllipseCovers(region: set<BlockPosition>, q: Query, k: int)
    requires forall c: BlockPosition ::
      c.y == q.start.y && q.passable(c) && Distance(q.start, c) + Distance(c, q.destination) <= k ==> c in region
    ensures CoversSearch(region, q, k)
  {
    forall c | Within(c, q, k)
      ensures c in region
    {
      var w :| IsPath(w, q, c) && |w| - 1 + Distance(c, q.destination) <= k;
      DistanceAlongPath(w, q, c, 0);
      PathStaysLevel(w, q, c, 0);
    }
  }

  lemma {:induction false} PathStaysLevel(w: seq<BlockPosition>, q: Query, goal: BlockPosition, i: nat)
    requires IsPath(w, q, goal) && i < |w|
    ensures w[i].y == goal.y
    decreases |w| - i
  {
    if i < |w| - 1 {
      assert Adjacent(w[i], w[i + 1]);
      PathStaysLevel(w, q, goal, i + 1);
    }
  }

  /** In an enclosed area it suffices that the budget exceeds four times its cells. */
  lemma EnclosureCovers(region: set<BlockPosition>, q: Query, k: int)
    requires q.start in region
    requires forall p, r :: p in region && q.passable(r) && Adjacent(p, r) ==> r in region
    ensures CoversSearch(region, q, k)
  {
    forall c | Within(c, q, k)
      ensures c in region
    {
      var w :| IsPath(w, q, c) && |w| - 1 + Distance(c, q.destination) <= k;
      PathStaysInside(w, region, q, c, |w| - 1);
    }
  }

  lemma {:induction false} PathStaysInside(w: seq<BlockPosition>, region: set<BlockPosition>, q: Query,
                                           goal: BlockPosition, i: nat)
    requires IsPath(w, q, goal) && i < |w|
    requires q.start in region
    requires forall p, r :: p in region && q.passable(r) && Adjacent(p, r) ==> r in region
    ensures w[i] in region
  {
    if i > 0 {
      PathStaysInside(w, region, q, goal, i - 1);
      assert Adjacent(w[i - 1], w[i]);
    }
  }
}
