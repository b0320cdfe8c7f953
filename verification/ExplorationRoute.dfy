/** The breadth-first route choice of scripts/process_harness.py on the disclosed part of a floor: a shortest walk to
    a stair, or else to a cell that was not visited yet. */
module ExplorationRoute {
  import opened Options

  datatype Cell = Cell(x: int, y: int)
  datatype Direction = West | East | North | South
  datatype Leg = Leg(cell: Cell, direction: Direction)
  type Path = seq<Leg>

  const DIRECTIONS: seq<Direction> := [West, East, North, South]

  function Move(from: Cell, direction: Direction): Cell {
    match direction
    case West => Cell(from.x - 1, from.y)
    case East => Cell(from.x + 1, from.y)
    case North => Cell(from.x, from.y - 1)
    case South => Cell(from.x, from.y + 1)
  }

  function EndOf(at: Cell, path: Path): Cell {
    if path == [] then at else path[|path| - 1].cell
  }

  /** Every leg steps onto disclosed floor, in the direction its label says. */
  ghost predicate IsWalk(at: Cell, path: Path, floor: set<Cell>) {
    forall i :: 0 <= i < |path| ==>
      path[i].cell in floor && path[i].cell == Move(EndOf(at, path[..i]), path[i].direction)
  }

  /** What one pass looks for: another known stair, or a cell not visited yet. */
  predicate IsGoal(seekStair: bool, here: Cell, at: Cell, stairs: set<Cell>, visited: set<Cell>) {
    here != at && if seekStair then here in stairs else here !in visited
  }

  ghost predicate Reaches(seekStair: bool, at: Cell, floor: set<Cell>, stairs: set<Cell>, visited: set<Cell>, path: Path) {
    IsWalk(at, path, floor) && IsGoal(seekStair, EndOf(at, path), at, stairs, visited)
  }

  ghost predicate Reachable(seekStair: bool, at: Cell, floor: set<Cell>, stairs: set<Cell>, visited: set<Cell>) {
    exists path: Path :: Reaches(seekStair, at, floor, stairs, visited, path)
  }

  ghost predicate IsShortest(seekStair: bool, at: Cell, floor: set<Cell>, stairs: set<Cell>, visited: set<Cell>, route: Path) {
    && Reaches(seekStair, at, floor, stairs, visited, route)
    && forall path: Path :: Reaches(seekStair, at, floor, stairs, visited, path) ==> |route| <= |path|
  }

  // ----- What a route is

  /** One step west, east, north (towards smaller y) or south, onto disclosed floor. */
  predicate IsStep(from: Cell, leg: Leg, floor: set<Cell>) {
    && leg.cell in floor
    && match leg.direction
       case West => leg.cell.x == from.x - 1 && leg.cell.y == from.y
       case East => leg.cell.x == from.x + 1 && leg.cell.y == from.y
       case North => leg.cell.x == from.x && leg.cell.y == from.y - 1
       case South => leg.cell.x == from.x && leg.cell.y == from.y + 1
  }

  function Before(at: Cell, route: Path, i: nat): Cell
    requires i < |route|
  {
    if i == 0 then at else route[i - 1].cell
  }

  predicate IsRoute(at: Cell, floor: set<Cell>, route: Path) {
    forall i :: 0 <= i < |route| ==> IsStep(Before(at, route, i), route[i], floor)
  }

  /** A route to a stair other than the start. */
  predicate ToStair(at: Cell, floor: set<Cell>, stairs: set<Cell>, route: Path) {
    route != [] && IsRoute(at, floor, route) && route[|route| - 1].cell in stairs && route[|route| - 1].cell != at
  }

  /** A route to a cell, other than the start, that was not visited yet. */
  predicate ToFrontier(at: Cell, floor: set<Cell>, visited: set<Cell>, route: Path) {
    route != [] && IsRoute(at, floor, route) && route[|route| - 1].cell !in visited && route[|route| - 1].cell != at
  }

  lemma RouteExactly(at: Cell, floor: set<Cell>, route: Path)
    ensures IsWalk(at, route, floor) <==> IsRoute(at, floor, route)
  {
    forall i | 0 <= i < |route|
      ensures IsStep(Before(at, route, i), route[i], floor)
        <==> route[i].cell in floor && route[i].cell == Move(EndOf(at, route[..i]), route[i].direction)
    {
      assert EndOf(at, route[..i]) == Before(at, route, i);
    }
    if IsRoute(at, floor, route) {
      forall i | 0 <= i < |route|
        ensures route[i].cell in floor && route[i].cell == Move(EndOf(at, route[..i]), route[i].direction)
      {
        assert IsStep(Before(at, route, i), route[i], floor);
      }
    }
  }

  lemma ReachesExactly(at: Cell, floor: set<Cell>, stairs: set<Cell>, visited: set<Cell>)
    ensures forall route :: Reaches(true, at, floor, stairs, visited, route) <==> ToStair(at, floor, stairs, route)
    ensures forall route :: Reaches(false, at, floor, stairs, visited, route) <==> ToFrontier(at, floor, visited, route)
  {
    forall route
      ensures Reaches(true, at, floor, stairs, visited, route) <==> ToStair(at, floor, stairs, route)
      ensures Reaches(false, at, floor, stairs, visited, route) <==> ToFrontier(at, floor, visited, route)
    {
      RouteExactly(at, floor, route);
    }
  }

  /** A shortest route to a stair or, only if there is none, a shortest one to the frontier; nothing only without either. */
  ghost predicate IsChosen(at: Cell, floor: set<Cell>, stairs: set<Cell>, visited: set<Cell>, route: Option<Path>) {
    match route
    case Some(path) =>
      || (ToStair(at, floor, stairs, path) && forall other :: ToStair(at, floor, stairs, other) ==> |path| <= |other|)
      || ((forall other :: !ToStair(at, floor, stairs, other)) && ToFrontier(at, floor, visited, path)
          && forall other :: ToFrontier(at, floor, visited, other) ==> |path| <= |other|)
    case None => forall other :: !ToStair(at, floor, stairs, other) && !ToFrontier(at, floor, visited, other)
  }

  /** The two passes: stairs first, then the frontier. */
  method DisclosedExplorationRoute(at: Cell, floor: set<Cell>, stairs: set<Cell>, visited: set<Cell>)
    returns (route: Option<Path>)
    ensures Reachable(true, at, floor, stairs, visited) ==>
      route.Some? && IsShortest(true, at, floor, stairs, visited, route.value)
    ensures !Reachable(true, at, floor, stairs, visited) && Reachable(false, at, floor, stairs, visited) ==>
      route.Some? && IsShortest(false, at, floor, stairs, visited, route.value)
    ensures route.None? <==>
      !Reachable(true, at, floor, stairs, visited) && !Reachable(false, at, floor, stairs, visited)
    ensures IsChosen(at, floor, stairs, visited, route)
  {
    ReachesExactly(at, floor, stairs, visited);
    route := Search(true, at, floor, stairs, visited);
    if route.None? {
      route := Search(false, at, floor, stairs, visited);
    }
  }

  datatype Entry = Entry(here: Cell, path: Path)

  /** Entries are walks to distinct cells, in order of length, over at most two lengths. */
  ghost predicate IsQueue(queue: seq<Entry>, at: Cell, floor: set<Cell>) {
    && (forall i :: 0 <= i < |queue| ==> IsWalk(at, queue[i].path, floor) && queue[i].here == EndOf(at, queue[i].path))
    && (forall i, j :: 0 <= i < j < |queue| ==>
        queue[i].here != queue[j].here && |queue[i].path| <= |queue[j].path| <= |queue[0].path| + 1)
  }

  ghost function CellsOf(queue: seq<Entry>): set<Cell> {
    set e | e in queue :: e.here
  }

  /** Every seen cell is either done or queued, the queued ones at the depth recorded for them. */
  ghost predicate Accounted(depth: map<Cell, nat>, done: set<Cell>, queue: seq<Entry>) {
    && depth.Keys == done + CellsOf(queue)
    && done !! CellsOf(queue)
    && forall e :: e in queue ==> e.here in depth && depth[e.here] == |e.path|
  }

  ghost predicate Expanded(c: Cell, floor: set<Cell>, depth: map<Cell, nat>)
    requires c in depth
  {
    forall d: Direction :: Move(c, d) in floor ==> Move(c, d) in depth && depth[Move(c, d)] <= depth[c] + 1
  }

  ghost predicate Closed(done: set<Cell>, floor: set<Cell>, depth: map<Cell, nat>)
    requires done <= depth.Keys
  {
    forall c :: c in done ==> Expanded(c, floor, depth)
  }

  /** A walk shorter than every queued path stays among the done cells. */
  lemma {:induction false} ShortWalkIsDone(at: Cell, floor: set<Cell>, depth: map<Cell, nat>, done: set<Cell>, limit: nat, path: Path)
    requires at in depth && depth[at] == 0 && done <= depth.Keys && Closed(done, floor, depth)
    requires forall c :: c in depth && c !in done ==> depth[c] >= limit
    requires IsWalk(at, path, floor) && |path| < limit
    ensures EndOf(at, path) in done && depth[EndOf(at, path)] <= |path|
    decreases |path|
  {
    if path != [] {
      var n := |path| - 1;
      assert forall i :: 0 <= i <= n ==> path[..n][..i] == path[..i];
      ShortWalkIsDone(at, floor, depth, done, limit, path[..n]);
      var before := EndOf(at, path[..n]);
      assert Expanded(before, floor, depth) && path[n].cell == Move(before, path[n].direction);
    }
  }

  lemma WalkExtends(at: Cell, path: Path, floor: set<Cell>, d: Direction)
    requires IsWalk(at, path, floor) && Move(EndOf(at, path), d) in floor
    ensures IsWalk(at, path + [Leg(Move(EndOf(at, path), d), d)], floor)
  {
    var longer := path + [Leg(Move(EndOf(at, path), d), d)];
    forall i | 0 <= i < |longer|
      ensures longer[i].cell in floor && longer[i].cell == Move(EndOf(at, longer[..i]), longer[i].direction)
    {
      assert longer[..i] == path[..i];
      assert path[..|path|] == path;
    }
  }

  /** The state of one pass: queue holds the seen cells that are not done. */
  ghost predicate IsFrontier(at: Cell, floor: set<Cell>, depth: map<Cell, nat>, done: set<Cell>, queue: seq<Entry>) {
    && IsQueue(queue, at, floor)
    && at in depth && depth[at] == 0 && depth.Keys <= floor + {at}
    && Accounted(depth, done, queue) && Closed(done, floor, depth)
    && (queue != [] ==> forall c :: c in done ==> depth[c] <= |queue[0].path|)
  }

  lemma Start(at: Cell, floor: set<Cell>)
    ensures IsFrontier(at, floor, map[at := 0], {}, [Entry(at, [])])
  {
    assert CellsOf([Entry(at, [])]) == {at} by { assert Entry(at, []) in [Entry(at, [])]; }
  }

  /** Appending a newly seen neighbour of the cell in hand. */
  lemma Discover(at: Cell, floor: set<Cell>, depth: map<Cell, nat>, done: set<Cell>, queue: seq<Entry>, d: Direction)
    requires queue != [] && IsFrontier(at, floor, depth, done, queue)
    requires Move(queue[0].here, d) in floor && Move(queue[0].here, d) !in depth
    ensures var neighbor, path := Move(queue[0].here, d), queue[0].path;
      IsFrontier(at, floor, depth[neighbor := |path| + 1], done, queue + [Entry(neighbor, path + [Leg(neighbor, d)])])
  {
    var neighbor, path := Move(queue[0].here, d), queue[0].path;
    var entry := Entry(neighbor, path + [Leg(neighbor, d)]);
    WalkExtends(at, path, floor, d);
    forall i | 0 <= i < |queue|
      ensures queue[i].here != neighbor && |queue[i].path| <= |path| + 1
    {
      assert queue[i] in queue;
      assert i == 0 || |queue[i].path| <= |queue[0].path| + 1;
    }
    QueuePush(queue, at, floor, entry);
    AccountedPush(depth, done, queue, entry);
    ClosedGrows(done, floor, depth, neighbor, |path| + 1);
    assert (queue + [entry])[0] == queue[0];
  }

  lemma QueuePush(queue: seq<Entry>, at: Cell, floor: set<Cell>, entry: Entry)
    requires queue != [] && IsQueue(queue, at, floor)
    requires IsWalk(at, entry.path, floor) && entry.here == EndOf(at, entry.path) && |entry.path| == |queue[0].path| + 1
    requires forall i :: 0 <= i < |queue| ==> queue[i].here != entry.here && |queue[i].path| <= |entry.path|
    ensures IsQueue(queue + [entry], at, floor)
  {
  }

  lemma AccountedPush(depth: map<Cell, nat>, done: set<Cell>, queue: seq<Entry>, entry: Entry)
    requires Accounted(depth, done, queue) && entry.here !in depth
    ensures Accounted(depth[entry.here := |entry.path|], done, queue + [entry])
  {
    var depth', queue' := depth[entry.here := |entry.path|], queue + [entry];
    assert CellsOf(queue') == CellsOf(queue) + {entry.here} by {
      assert entry in queue';
      assert forall e :: e in queue ==> e in queue';
      assert forall e :: e in queue' ==> e in queue || e == entry;
    }
    assert forall e :: e in queue ==> e.here in CellsOf(queue);
  }

  lemma ClosedGrows(done: set<Cell>, floor: set<Cell>, depth: map<Cell, nat>, c: Cell, n: nat)
    requires done <= depth.Keys && Closed(done, floor, depth) && c !in depth
    ensures Closed(done, floor, depth[c := n])
  {
    assert forall c :: c in done ==> Expanded(c, floor, depth);
  }

  /** The cell in hand is done once all its neighbours on floor are seen. */
  lemma Complete(at: Cell, floor: set<Cell>, depth: map<Cell, nat>, done: set<Cell>, queue: seq<Entry>)
    requires queue != [] && IsFrontier(at, floor, depth, done, queue) && Expanded(queue[0].here, floor, depth)
    ensures IsFrontier(at, floor, depth, done + {queue[0].here}, queue[1..])
  {
    AccountedPop(at, floor, depth, done, queue);
    assert queue[0] in queue;
    assert queue[1..] != [] ==> queue[1..][0] == queue[1];
    assert Closed(done + {queue[0].here}, floor, depth);
  }

  lemma AccountedPop(at: Cell, floor: set<Cell>, depth: map<Cell, nat>, done: set<Cell>, queue: seq<Entry>)
    requires queue != [] && IsQueue(queue, at, floor) && Accounted(depth, done, queue)
    ensures Accounted(depth, done + {queue[0].here}, queue[1..]) && IsQueue(queue[1..], at, floor)
  {
    assert CellsOf(queue) == {queue[0].here} + CellsOf(queue[1..]) by { CellsPop(queue); }
    HeadOnce(queue, at, floor);
    QueuePop(queue, at, floor);
  }

  lemma HeadOnce(queue: seq<Entry>, at: Cell, floor: set<Cell>)
    requires queue != [] && IsQueue(queue, at, floor)
    ensures queue[0].here !in CellsOf(queue[1..])
  {
    forall e | e in queue[1..]
      ensures e.here != queue[0].here
    {
      var i :| 0 <= i < |queue[1..]| && queue[1..][i] == e;
      assert queue[i + 1] == e;
    }
  }

  lemma CellsPop(queue: seq<Entry>)
    requires queue != []
    ensures CellsOf(queue) == {queue[0].here} + CellsOf(queue[1..])
  {
    assert queue == [queue[0]] + queue[1..];
    assert forall e :: e in queue <==> e == queue[0] || e in queue[1..];
  }

  lemma QueuePop(queue: seq<Entry>, at: Cell, floor: set<Cell>)
    requires queue != [] && IsQueue(queue, at, floor)
    ensures IsQueue(queue[1..], at, floor)
  {
    var rest := queue[1..];
    forall i, j | 0 <= i < j < |rest|
      ensures rest[i].here != rest[j].here && |rest[i].path| <= |rest[j].path| <= |rest[0].path| + 1
    {
      assert rest[i] == queue[i + 1] && rest[j] == queue[j + 1] && rest[0] == queue[1];
      assert |queue[j + 1].path| <= |queue[0].path| + 1 && |queue[0].path| <= |queue[1].path|;
    }
  }

  /** Nothing done is a goal, so every goal is at least as far as the head of the queue. */
  lemma GoalsAreFar(seekStair: bool, at: Cell, floor: set<Cell>, stairs: set<Cell>, visited: set<Cell>,
                    depth: map<Cell, nat>, done: set<Cell>, queue: seq<Entry>, path: Path)
    requires IsFrontier(at, floor, depth, done, queue)
    requires forall c :: c in done ==> !IsGoal(seekStair, c, at, stairs, visited)
    requires Reaches(seekStair, at, floor, stairs, visited, path)
    ensures queue != [] && |queue[0].path| <= |path|
  {
    var limit := if queue == [] then |path| + 1 else |queue[0].path|;
    if |path| < limit {
      forall c | c in depth && c !in done
        ensures depth[c] >= limit
      {
        var e :| e in queue && e.here == c;
        var i :| 0 <= i < |queue| && queue[i] == e;
        assert i == 0 || |queue[0].path| <= |queue[i].path|;
      }
      ShortWalkIsDone(at, floor, depth, done, limit, path);
    }
  }

  /** The first k directions from the cell in hand lead off the floor or to seen cells. */
  ghost predicate Tried(here: Cell, k: nat, floor: set<Cell>, depth: map<Cell, nat>)
    requires here in depth && k <= |DIRECTIONS|
  {
    forall i :: 0 <= i < k ==>
      Move(here, DIRECTIONS[i]) in floor ==>
      Move(here, DIRECTIONS[i]) in depth && depth[Move(here, DIRECTIONS[i])] <= depth[here] + 1
  }

  lemma TriedAll(here: Cell, floor: set<Cell>, depth: map<Cell, nat>)
    requires here in depth && Tried(here, |DIRECTIONS|, floor, depth)
    ensures Expanded(here, floor, depth)
  {
    assert DIRECTIONS[0] == West && DIRECTIONS[1] == East && DIRECTIONS[2] == North && DIRECTIONS[3] == South;
  }

  /** No seen cell is more than one step deeper than the cell in hand. */
  lemma SeenInTime(at: Cell, floor: set<Cell>, depth: map<Cell, nat>, done: set<Cell>, queue: seq<Entry>, c: Cell)
    requires queue != [] && IsFrontier(at, floor, depth, done, queue) && c in depth
    ensures depth[c] <= |queue[0].path| + 1
  {
    if c !in done {
      var e :| e in queue && e.here == c;
      var i :| 0 <= i < |queue| && queue[i] == e;
      assert i == 0 || |queue[i].path| <= |queue[0].path| + 1;
    }
  }

  lemma TriedNew(here: Cell, k: nat, floor: set<Cell>, depth: map<Cell, nat>, neighbor: Cell, n: nat)
    requires here in depth && k < |DIRECTIONS| && Tried(here, k, floor, depth)
    requires neighbor == Move(here, DIRECTIONS[k]) && neighbor !in depth && n <= depth[here] + 1
    ensures here in depth[neighbor := n] && Tried(here, k + 1, floor, depth[neighbor := n])
  {
  }

  lemma TryNew(at: Cell, floor: set<Cell>, depth: map<Cell, nat>, done: set<Cell>, entry: Entry, queue: seq<Entry>, k: nat)
    requires IsFrontier(at, floor, depth, done, [entry] + queue)
    requires entry.here in depth && k < |DIRECTIONS| && Tried(entry.here, k, floor, depth)
    requires Move(entry.here, DIRECTIONS[k]) in floor && Move(entry.here, DIRECTIONS[k]) !in depth
    ensures var neighbor := Move(entry.here, DIRECTIONS[k]);
      var depth' := depth[neighbor := |entry.path| + 1];
      IsFrontier(at, floor, depth', done, [entry] + (queue + [Entry(neighbor, entry.path + [Leg(neighbor, DIRECTIONS[k])])])) &&
      Tried(entry.here, k + 1, floor, depth')
  {
    var neighbor := Move(entry.here, DIRECTIONS[k]);
    var next := Entry(neighbor, entry.path + [Leg(neighbor, DIRECTIONS[k])]);
    assert ([entry] + queue)[0] in [entry] + queue;
    TriedNew(entry.here, k, floor, depth, neighbor, |entry.path| + 1);
    Discover(at, floor, depth, done, [entry] + queue, DIRECTIONS[k]);
    assert [entry] + queue + [next] == [entry] + (queue + [next]);
  }

  lemma TrySeen(at: Cell, floor: set<Cell>, depth: map<Cell, nat>, done: set<Cell>, entry: Entry, queue: seq<Entry>, k: nat)
    requires IsFrontier(at, floor, depth, done, [entry] + queue)
    requires entry.here in depth && k < |DIRECTIONS| && Tried(entry.here, k, floor, depth)
    requires Move(entry.here, DIRECTIONS[k]) in floor ==> Move(entry.here, DIRECTIONS[k]) in depth
    ensures Tried(entry.here, k + 1, floor, depth)
  {
    assert ([entry] + queue)[0] in [entry] + queue;
    if Move(entry.here, DIRECTIONS[k]) in floor {
      SeenInTime(at, floor, depth, done, [entry] + queue, Move(entry.here, DIRECTIONS[k]));
    }
  }

  /** The loop over the four directions: unseen floor neighbours join the end of the queue. */
  method Expand(at: Cell, floor: set<Cell>, entry: Entry, rest: seq<Entry>, known: set<Cell>,
                ghost depth: map<Cell, nat>, ghost done: set<Cell>)
    returns (queue: seq<Entry>, seen: set<Cell>, ghost depth': map<Cell, nat>)
    requires known == depth.Keys && IsFrontier(at, floor, depth, done, [entry] + rest)
    ensures seen == depth'.Keys && IsFrontier(at, floor, depth', done, [entry] + queue)
    ensures entry.here in depth' && Expanded(entry.here, floor, depth')
    ensures rest <= queue && known <= seen <= known + floor
    ensures forall d :: Move(entry.here, d) in floor ==> Move(entry.here, d) in seen
  {
    queue, seen, depth' := rest, known, depth;
    assert entry in [entry] + rest;
    for k := 0 to |DIRECTIONS|
      invariant seen == depth'.Keys && IsFrontier(at, floor, depth', done, [entry] + queue)
      invariant entry.here in depth' && Tried(entry.here, k, floor, depth')
      invariant rest <= queue && known <= seen <= known + floor
    {
      var neighbor := Move(entry.here, DIRECTIONS[k]);
      if neighbor in floor && neighbor !in seen {
        TryNew(at, floor, depth', done, entry, queue, k);
        seen := seen + {neighbor};
        queue := queue + [Entry(neighbor, entry.path + [Leg(neighbor, DIRECTIONS[k])])];
        depth' := depth'[neighbor := |entry.path| + 1];
      } else {
        TrySeen(at, floor, depth', done, entry, queue, k);
      }
    }
    TriedAll(entry.here, floor, depth');
  }

  method Search(seekStair: bool, at: Cell, floor: set<Cell>, stairs: set<Cell>, visited: set<Cell>)
    returns (route: Option<Path>)
    ensures Reachable(seekStair, at, floor, stairs, visited) ==>
      route.Some? && IsShortest(seekStair, at, floor, stairs, visited, route.value)
    ensures !Reachable(seekStair, at, floor, stairs, visited) ==> route.None?
  {
    var queue := [Entry(at, [])];
    var seen := {at};
    ghost var depth: map<Cell, nat> := map[at := 0];
    ghost var done: set<Cell> := {};
    Start(at, floor);
    while queue != []
      invariant seen == depth.Keys && IsFrontier(at, floor, depth, done, queue)
      invariant forall c :: c in done ==> !IsGoal(seekStair, c, at, stairs, visited)
      decreases (floor + {at}) - done
    {
      var entry := queue[0];
      if IsGoal(seekStair, entry.here, at, stairs, visited) {
        assert Reaches(seekStair, at, floor, stairs, visited, entry.path);
        forall other: Path | Reaches(seekStair, at, floor, stairs, visited, other) {
          GoalsAreFar(seekStair, at, floor, stairs, visited, depth, done, queue, other);
        }
        return Some(entry.path);
      }
      assert queue == [entry] + queue[1..];
      queue, seen, depth := Expand(at, floor, entry, queue[1..], seen, depth, done);
      ghost var whole := [entry] + queue;
      Complete(at, floor, depth, done, whole);
      assert whole[1..] == queue && whole[0] in whole;
      done := done + {entry.here};
    }
    forall other: Path | Reaches(seekStair, at, floor, stairs, visited, other)
      ensures false
    {
      GoalsAreFar(seekStair, at, floor, stairs, visited, depth, done, queue, other);
    }
    route := None;
  }
}
