/** src/map.c: the automap. A depth-bounded flood fill writes rooms and exits into a fixed
    two-dimensional array around the viewer. */
module AutoMap {
  import opened Shared

  type RoomId = nat

  /** An exit may lead nowhere; closed is its EXIT_CLOSED status. */
  datatype Exit = Exit(to: Option<RoomId>, closed: bool)
  datatype Room = Room(sector: nat, exits: seq<Option<Exit>>)
  datatype Pos = Pos(x: int, y: int)
  datatype Cell = Cell(symbol: char, depth: int, room: Option<RoomId>)

  const MAXDEPTH := 4
  const MAPX := 10
  const MAPY := 8
  const MAX_DIR := 6
  const MAP_CHARS := "|-|-"
  const MAP_CHARS_CLOSED := "I=I="
  const SECTOR_SYMBOLS := "oo**!@==%+&::#&?"
  const CENTRE := Pos(MAPX, MAPY)

  /** The rooms, and which of them the viewer can see. Every exit leads to a known room. */
  datatype World = World(rooms: map<RoomId, Room>, seen: set<RoomId>) {
    predicate Valid() {
      && (forall r :: r in rooms ==> |rooms[r].exits| == MAX_DIR && rooms[r].sector < |SECTOR_SYMBOLS|)
      && (forall r, d :: r in rooms && 0 <= d < MAX_DIR ==> Leads(r, d).Some? ==> Leads(r, d).value in rooms)
    }

    /** Where an exit visibly leads. */
    function Leads(r: RoomId, door: int): Option<RoomId>
      requires r in rooms
    {
      var exits := rooms[r].exits;
      if 0 <= door < |exits| && exits[door].Some? && exits[door].value.to.Some? && exits[door].value.to.value in seen
      then exits[door].value.to
      else None
    }

    /** The symbol of a compass exit. */
    function Symbol(r: RoomId, door: int): char
      requires r in rooms && 0 <= door < 4 && Leads(r, door).Some?
    {
      if rooms[r].exits[door].value.closed then MAP_CHARS_CLOSED[door] else MAP_CHARS[door]
    }

    /** The room a walk through compass exits ends in. */
    ghost function Walk(start: RoomId, path: seq<int>): Option<RoomId> {
      if path == [] then if start in rooms && start in seen then Some(start) else None
      else
        var before := Walk(start, path[..|path| - 1]);
        var door := path[|path| - 1];
        if before.Some? && before.value in rooms && 0 <= door < 4 then Leads(before.value, door) else None
    }
  }

  /** get_exit_dir: up and down give the point outside the map. */
  function GetExitDir(door: int, from: Pos): Pos {
    if door == 0 then Pos(from.x, from.y - 1)
    else if door == 1 then Pos(from.x + 1, from.y)
    else if door == 2 then Pos(from.x, from.y + 1)
    else if door == 3 then Pos(from.x - 1, from.y)
    else Pos(-1, -1)
  }

  predicate Boundary(p: Pos) {
    p.x < 0 || p.y < 0 || p.x > MAPX * 2 || p.y > MAPY * 2
  }

  /** The cell in which a walk from the centre ends: two columns or rows for each step. */
  ghost function Place(path: seq<int>): Pos {
    if path == [] then CENTRE
    else
      var door, before := path[|path| - 1], Place(path[..|path| - 1]);
      GetExitDir(door, GetExitDir(door, before))
  }

  function Abs(n: int): nat {
    if n < 0 then -n else n
  }

  function Distance(p: Pos): nat {
    Abs(p.x - MAPX) + Abs(p.y - MAPY)
  }

  predicate IsRoomCell(p: Pos) {
    (p.x - MAPX) % 2 == 0 && (p.y - MAPY) % 2 == 0
  }

  /** Near the centre, the bounds test rejects up and down and nothing else. */
  lemma BoundaryRejectsVertical(depth: int, p: Pos, door: int)
    requires 0 <= depth < MAXDEPTH && Distance(p) <= 2 * depth && 0 <= door < MAX_DIR
    ensures var e := GetExitDir(door, p);
            var r := GetExitDir(door, e);
            && (Boundary(e) || Boundary(r) <==> door >= 4)
            && (door < 4 ==> Distance(r) <= 2 * (depth + 1))
  {
  }

  // ---------------------------------------------------------------- what a map may show

  type Grid = map<Pos, Cell>

  ghost predicate IsGrid(g: Grid) {
    forall p :: p in g <==> !Boundary(p)
  }

  /** A drawn room cell shows the room some walk ends in, at the cell where that walk ends; the walk
      has one step for each level of depth below the first. */
  ghost predicate GoodRoomCell(w: World, start: RoomId, d0: int, p: Pos, c: Cell) {
    && c.room.Some? && c.room.value in w.rooms && c.room.value in w.seen
    && d0 <= c.depth <= MAXDEPTH && Distance(p) <= 2 * (c.depth - d0)
    && exists path :: WalkTo(w, start, path, p, c.room.value) && |path| == c.depth - d0
  }

  ghost predicate WalkTo(w: World, start: RoomId, path: seq<int>, p: Pos, r: RoomId) {
    w.Walk(start, path) == Some(r) && Place(path) == p
  }

  /** A drawn exit cell shows an exit of the room drawn next to it. */
  ghost predicate GoodExitCell(w: World, g: Grid, p: Pos, c: Cell) {
    exists q, door :: ShowsExit(w, g, p, c, q, door)
  }

  ghost predicate ShowsExit(w: World, g: Grid, p: Pos, c: Cell, q: Pos, door: int) {
    && q in g && IsRoomCell(q) && 0 <= door < 4 && p == GetExitDir(door, q)
    && g[q].room.Some? && g[q].room.value in w.rooms
    && w.Leads(g[q].room.value, door).Some? && c.room == w.Leads(g[q].room.value, door)
    && c.symbol == w.Symbol(g[q].room.value, door)
  }

  ghost predicate GoodCell(w: World, start: RoomId, d0: int, g: Grid, p: Pos)
    requires p in g
  {
    g[p].room.Some? ==>
      if IsRoomCell(p) then GoodRoomCell(w, start, d0, p, g[p]) else GoodExitCell(w, g, p, g[p])
  }

  ghost predicate Sound(w: World, start: RoomId, d0: int, g: Grid) {
    IsGrid(g) && forall p :: p in g ==> GoodCell(w, start, d0, g, p)
  }

  ghost predicate RoomSymbols(w: World, g: Grid) {
    forall p :: p in g && IsRoomCell(p) && g[p].room.Some? && g[p].room.value in w.rooms ==>
      && w.rooms[g[p].room.value].sector < |SECTOR_SYMBOLS|
      && g[p].symbol == SECTOR_SYMBOLS[w.rooms[g[p].room.value].sector]
  }

  // ---------------------------------------------------------------- what a map must show

  /** A cell that was drawn at some depth. */
  datatype Visit = Visit(p: Pos, depth: int)

  /** The exit was drawn, and so was something behind it: the room it leads to, in its turn, or another. */
  ghost predicate DoorDone(w: World, g: Grid, visits: set<Visit>, p: Pos, depth: int, r: RoomId, door: int)
    requires r in w.rooms
  {
    w.Leads(r, door).Some? ==>
      var e := GetExitDir(door, p);
      var s := GetExitDir(door, e);
      && e in g && s in g && g[e].room.Some? && g[s].room.Some?
      && (g[s].room == w.Leads(r, door) ==> Visit(s, depth + 1) in visits)
  }

  ghost predicate Finished(w: World, g: Grid, visits: set<Visit>, v: Visit) {
    && IsRoomCell(v.p) && v.p in g && g[v.p].room.Some? && g[v.p].room.value in w.rooms
    && (v.depth < MAXDEPTH ==>
          forall door :: 0 <= door < 4 ==> DoorDone(w, g, visits, v.p, v.depth, g[v.p].room.value, door))
  }

  /** Drawing goes on from one state to another: no room cell changes its room, nothing disappears,
      and every new visit is finished, except the pending ones. */
  ghost predicate Grows(w: World, g: Grid, visits: set<Visit>, g': Grid, visits': set<Visit>, pending: set<Visit>) {
    && IsGrid(g) && IsGrid(g') && visits <= visits'
    && (forall p :: p in g && g[p].room.Some? ==> g'[p].room.Some?)
    && (forall p :: p in g && IsRoomCell(p) && g[p].room.Some? ==> g'[p].room == g[p].room)
    && (forall v :: v in visits' && v !in visits && v !in pending ==> Finished(w, g', visits', v))
  }

  lemma NextRoomCell(p: Pos, door: int)
    requires 0 <= door < 4 && IsRoomCell(p)
    ensures !IsRoomCell(GetExitDir(door, p)) && IsRoomCell(GetExitDir(door, GetExitDir(door, p)))
  {
  }

  lemma DoorStaysDone(w: World, g: Grid, visits: set<Visit>, g': Grid, visits': set<Visit>,
                      p: Pos, depth: int, r: RoomId, door: int)
    requires Grows(w, g, visits, g', visits', {}) && IsRoomCell(p) && r in w.rooms && 0 <= door < 4
    requires DoorDone(w, g, visits, p, depth, r, door)
    ensures DoorDone(w, g', visits', p, depth, r, door)
  {
    NextRoomCell(p, door);
  }

  lemma FinishedStays(w: World, g: Grid, visits: set<Visit>, g': Grid, visits': set<Visit>, v: Visit)
    requires Grows(w, g, visits, g', visits', {}) && Finished(w, g, visits, v)
    ensures Finished(w, g', visits', v)
  {
    hide DoorDone;
    if v.depth < MAXDEPTH {
      var r := g[v.p].room.value;
      forall door | 0 <= door < 4
        ensures DoorDone(w, g', visits', v.p, v.depth, r, door)
      {
        DoorStaysDone(w, g, visits, g', visits', v.p, v.depth, r, door);
      }
    }
  }

  lemma GrowsOn(w: World, g0: Grid, v0: set<Visit>, g1: Grid, v1: set<Visit>, pending: set<Visit>,
                g2: Grid, v2: set<Visit>)
    requires Grows(w, g0, v0, g1, v1, pending) && Grows(w, g1, v1, g2, v2, {})
    ensures Grows(w, g0, v0, g2, v2, pending)
  {
    hide Finished;
    forall v | v in v2 && v !in v0 && v !in pending
      ensures Finished(w, g2, v2, v)
    {
      if v in v1 {
        FinishedStays(w, g1, v1, g2, v2, v);
      }
    }
  }

  lemma RoomDrawn(w: World, start: RoomId, d0: int, g: Grid, p: Pos, c: Cell, path: seq<int>)
    requires Sound(w, start, d0, g) && RoomSymbols(w, g) && w.Valid()
    requires p in g && IsRoomCell(p) && GoodRoomCell(w, start, d0, p, c)
    requires g[p].room == None || g[p].room == c.room
    requires c.symbol == SECTOR_SYMBOLS[w.rooms[c.room.value].sector]
    ensures Sound(w, start, d0, g[p := c]) && RoomSymbols(w, g[p := c])
  {
    hide GoodRoomCell;
    var g' := g[p := c];
    forall e | e in g'
      ensures GoodCell(w, start, d0, g', e)
    {
      assert GoodCell(w, start, d0, g, e);
      if e != p && g[e].room.Some? && !IsRoomCell(e) {
        var q, door :| ShowsExit(w, g, e, g[e], q, door);
        assert ShowsExit(w, g', e, g'[e], q, door);
      }
    }
  }

  lemma ExitDrawn(w: World, start: RoomId, d0: int, g: Grid, p: Pos, door: int, c: Cell)
    requires Sound(w, start, d0, g) && RoomSymbols(w, g) && w.Valid()
    requires p in g && IsRoomCell(p) && 0 <= door < 4 && GetExitDir(door, p) in g
    requires ShowsExit(w, g, GetExitDir(door, p), c, p, door)
    ensures Sound(w, start, d0, g[GetExitDir(door, p) := c]) && RoomSymbols(w, g[GetExitDir(door, p) := c])
  {
    hide GoodRoomCell;
    NextRoomCell(p, door);
    var at := GetExitDir(door, p);
    var g' := g[at := c];
    forall e | e in g'
      ensures GoodCell(w, start, d0, g', e)
    {
      assert GoodCell(w, start, d0, g, e);
      if e == at {
        assert ShowsExit(w, g', e, c, p, door);
      } else if g[e].room.Some? && !IsRoomCell(e) {
        var q, d :| ShowsExit(w, g, e, g[e], q, d);
        assert ShowsExit(w, g', e, g'[e], q, d);
      }
    }
  }

  lemma WalkOn(w: World, start: RoomId, path: seq<int>, p: Pos, r: RoomId, door: int)
    requires WalkTo(w, start, path, p, r) && r in w.rooms && 0 <= door < 4 && w.Leads(r, door).Some?
    ensures WalkTo(w, start, path + [door], GetExitDir(door, GetExitDir(door, p)), w.Leads(r, door).value)
  {
    var on := path + [door];
    assert on[..|on| - 1] == path;
  }

  // ---------------------------------------------------------------- the drawing

  class Map {
    const cells: array2<Cell>
    const world: World
    const start: RoomId
    const firstDepth: int
    /** The contents of the array by position, and every drawing of a room so far. */
    ghost var grid: Grid
    ghost var visits: set<Visit>

    ghost predicate Valid()
      reads this, cells
    {
      && cells.Length0 == 2 * MAPX + 1 && cells.Length1 == 2 * MAPY + 1
      && world.Valid() && 0 <= firstDepth
      && IsGrid(grid) && forall p :: p in grid ==> grid[p] == cells[p.x, p.y]
    }

    ghost predicate Drawn()
      reads this
    {
      Sound(world, start, firstDepth, grid) && RoomSymbols(world, grid)
    }

    constructor (world: World, start: RoomId, firstDepth: int)
      requires world.Valid() && 0 <= firstDepth
      ensures Valid() && visits == {} && fresh(cells)
      ensures this.world == world && this.start == start && this.firstDepth == firstDepth
    {
      cells := new Cell[2 * MAPX + 1, 2 * MAPY + 1]((x, y) => Cell('.', 0, None));
      this.world, this.start, this.firstDepth, visits := world, start, firstDepth, {};
      grid := Uniform(Cell('.', 0, None));
    }

    method Write(p: Pos, c: Cell)
      requires Valid() && !Boundary(p)
      modifies cells, this`grid
      ensures Valid() && grid == old(grid)[p := c]
    {
      cells[p.x, p.y] := c;
      grid := grid[p := c];
    }

    /** The loops of draw_map that clear every coordinate. */
    method Clear()
      requires Valid()
      modifies cells, this`grid
      ensures Valid() && forall p :: p in grid ==> grid[p] == Cell('.', 0, None)
    {
      var none := Cell('.', 0, None);
      for y := 0 to 2 * MAPY + 1
        invariant Valid()
        invariant forall p :: p in grid && p.y < y ==> grid[p] == none
      {
        for x := 0 to 2 * MAPX + 1
          invariant Valid()
          invariant forall p :: p in grid && (p.y < y || (p.y == y && p.x < x)) ==> grid[p] == none
        {
          Write(Pos(x, y), none);
        }
      }
    }

    /** map_exits. The walk leads to the room to be drawn. */
    method MapExits(depth: int, room: Option<RoomId>, p: Pos, ghost path: seq<int>)
      requires Valid() && Drawn() && !Boundary(p) && IsRoomCell(p)
      requires firstDepth <= depth <= MAXDEPTH && |path| == depth - firstDepth
      requires Distance(p) <= 2 * |path|
      requires room.Some? ==> room.value in world.rooms
      requires room.Some? && room.value in world.seen ==> WalkTo(world, start, path, p, room.value)
      requires grid[p].room == None || grid[p].room == room
      modifies cells, this
      ensures Valid() && Drawn()
      ensures Grows(world, old(grid), old(visits), grid, visits, {})
      ensures room.Some? && room.value in world.seen ==> grid[p].room == room && Visit(p, depth) in visits
      ensures room == None || room.value !in world.seen ==> grid == old(grid) && visits == old(visits)
      decreases MAXDEPTH - depth, 3
    {
      if room == None || room.value !in world.seen {
        return;
      }
      hide Finished, DoorDone, Sound, RoomSymbols, Boundary, IsRoomCell, Grows;
      var r := room.value;
      var c := Cell(SECTOR_SYMBOLS[world.rooms[r].sector], depth, room);
      ghost var me := Visit(p, depth);
      RoomDrawn(world, start, firstDepth, grid, p, c, path);
      RoomWriteGrows(world, grid, visits, p, c, me);
      Write(p, c);
      visits := visits + {me};
      ghost var g, v := grid, visits;
      if depth < MAXDEPTH {
        MapDoors(depth, r, p, path);
        GrowsOn(world, old(grid), old(visits), g, v, {me}, grid, visits);
      }
      VisitFinished(world, old(grid), old(visits), grid, visits, me);
    }

    /** The loop of map_exits over the exits of a room. */
    method MapDoors(depth: int, r: RoomId, p: Pos, ghost path: seq<int>)
      requires Valid() && Drawn() && !Boundary(p) && IsRoomCell(p)
      requires firstDepth <= depth < MAXDEPTH && |path| == depth - firstDepth
      requires Distance(p) <= 2 * |path|
      requires r in world.rooms && WalkTo(world, start, path, p, r) && grid[p].room == Some(r)
      modifies cells, this
      ensures Valid() && Drawn() && grid[p].room == Some(r)
      ensures Grows(world, old(grid), old(visits), grid, visits, {})
      ensures forall d :: 0 <= d < 4 ==> DoorDone(world, grid, visits, p, depth, r, d)
      decreases MAXDEPTH - depth, 2
    {
      hide WalkTo, Finished, DoorDone, Sound, RoomSymbols, Boundary, IsRoomCell, Grows;
      GrowsNot(world, grid, visits);
      var door := 0;
      while door < MAX_DIR
        invariant 0 <= door <= MAX_DIR
        invariant Valid() && Drawn() && grid[p].room == Some(r)
        invariant Grows(world, old(grid), old(visits), grid, visits, {})
        invariant forall d :: 0 <= d < door && d < 4 ==> DoorDone(world, grid, visits, p, depth, r, d)
      {
        ghost var g, v := grid, visits;
        MapDoor(depth, r, p, door, path);
        GrowsOn(world, old(grid), old(visits), g, v, {}, grid, visits);
        forall d | 0 <= d < door && d < 4
          ensures DoorDone(world, grid, visits, p, depth, r, d)
        {
          DoorStaysDone(world, g, v, grid, visits, p, depth, r, d);
        }
        door := door + 1;
      }
    }

    /** The body of map_exits' loop: one exit of the room. */
    method MapDoor(depth: int, r: RoomId, p: Pos, door: int, ghost path: seq<int>)
      requires Valid() && Drawn() && !Boundary(p) && IsRoomCell(p)
      requires firstDepth <= depth < MAXDEPTH && |path| == depth - firstDepth
      requires Distance(p) <= 2 * |path| && 0 <= door < MAX_DIR
      requires r in world.rooms && WalkTo(world, start, path, p, r) && grid[p].room == Some(r)
      modifies cells, this
      ensures Valid() && Drawn() && grid[p].room == Some(r)
      ensures Grows(world, old(grid), old(visits), grid, visits, {})
      ensures door < 4 ==> DoorDone(world, grid, visits, p, depth, r, door)
      decreases MAXDEPTH - depth, 1
    {
      GrowsNot(world, grid, visits);
      assert world.Leads(r, door).None? ==> DoorDone(world, grid, visits, p, depth, r, door);
      hide WalkTo, Finished, Sound, RoomSymbols, IsRoomCell, Grows, DoorDone, GetExitDir;
      var exit := world.rooms[r].exits[door];
      if exit == None || exit.value.to == None || exit.value.to.value !in world.seen {
        return;
      }
      var to := exit.value.to;
      var e := GetExitDir(door, p);
      var s := GetExitDir(door, e);
      BoundaryRejectsVertical(depth, p, door);
      if Boundary(e) || Boundary(s) {
        return;
      }
      FollowExit(depth, r, p, door, path);
    }

    /** The rest of the loop's body: draws the exit, and the room behind it unless its cell is taken. */
    method FollowExit(depth: int, r: RoomId, p: Pos, door: int, ghost path: seq<int>)
      requires Valid() && Drawn() && IsRoomCell(p) && p in grid
      requires firstDepth <= depth < MAXDEPTH && |path| == depth - firstDepth && 0 <= door < 4
      requires r in world.rooms && WalkTo(world, start, path, p, r) && grid[p].room == Some(r)
      requires world.Leads(r, door).Some? && GetExitDir(door, p) in grid
      requires !Boundary(GetExitDir(door, GetExitDir(door, p)))
      requires Distance(GetExitDir(door, GetExitDir(door, p))) <= 2 * (|path| + 1)
      modifies cells, this
      ensures Valid() && Drawn() && grid[p].room == Some(r)
      ensures Grows(world, old(grid), old(visits), grid, visits, {})
      ensures DoorDone(world, grid, visits, p, depth, r, door)
      decreases MAXDEPTH - depth, 0
    {
      hide WalkTo, Finished, Sound, RoomSymbols, IsRoomCell, Grows, DoorDone, GetExitDir, Distance;
      NextRoomCell(p, door);
      DrawExit(depth, r, p, door);
      var e := GetExitDir(door, p);
      var s := GetExitDir(door, e);
      var to := world.Leads(r, door);
      ghost var g, v := grid, visits;
      if cells[s.x, s.y].room == to || cells[s.x, s.y].room == None {
        WalkOn(world, start, path, p, r, door);
        MapExits(depth + 1, to, s, path + [door]);
        GrowsOn(world, old(grid), old(visits), g, v, {}, grid, visits);
        StaysDrawn(world, g, v, grid, visits, {}, p, e);
      }
      ExitDone(world, grid, visits, p, depth, r, door);
    }

    method DrawExit(depth: int, r: RoomId, p: Pos, door: int)
      requires Valid() && Drawn() && IsRoomCell(p) && p in grid && 0 <= door < 4
      requires r in world.rooms && grid[p].room == Some(r)
      requires world.Leads(r, door).Some? && GetExitDir(door, p) in grid
      modifies cells, this`grid
      ensures Valid() && Drawn()
      ensures Grows(world, old(grid), visits, grid, visits, {})
      ensures grid[GetExitDir(door, p)].room == world.Leads(r, door)
      ensures forall q :: q in grid && q != GetExitDir(door, p) ==> grid[q] == old(grid)[q]
    {
      NextRoomCell(p, door);
      var e := GetExitDir(door, p);
      var c := Cell(world.Symbol(r, door), depth, world.Leads(r, door));
      assert ShowsExit(world, grid, e, c, p, door);
      hide Finished, Sound, RoomSymbols, IsRoomCell, Grows, ShowsExit, GetExitDir;
      ExitDrawn(world, start, firstDepth, grid, p, door, c);
      ExitWriteGrows(world, grid, visits, e, c);
      Write(e, c);
    }
  }

  lemma GrowsNot(w: World, g: Grid, visits: set<Visit>)
    requires IsGrid(g)
    ensures Grows(w, g, visits, g, visits, {})
  {
  }

  lemma RoomWriteGrows(w: World, g: Grid, visits: set<Visit>, p: Pos, c: Cell, v: Visit)
    requires IsGrid(g) && p in g && IsRoomCell(p) && c.room.Some? && (g[p].room == None || g[p].room == c.room)
    ensures Grows(w, g, visits, g[p := c], visits + {v}, {v})
  {
  }

  lemma ExitWriteGrows(w: World, g: Grid, visits: set<Visit>, p: Pos, c: Cell)
    requires IsGrid(g) && p in g && !IsRoomCell(p) && c.room.Some?
    ensures Grows(w, g, visits, g[p := c], visits, {})
  {
  }

  lemma StaysDrawn(w: World, g: Grid, visits: set<Visit>, g': Grid, visits': set<Visit>, pending: set<Visit>, p: Pos,
      e: Pos)
    requires Grows(w, g, visits, g', visits', pending)
    requires p in g && IsRoomCell(p) && g[p].room.Some? && e in g && g[e].room.Some?
    ensures p in g' && g'[p].room == g[p].room && e in g' && g'[e].room.Some?
  {
  }

  lemma ExitDone(w: World, g: Grid, visits: set<Visit>, p: Pos, depth: int, r: RoomId, door: int)
    requires r in w.rooms
    requires var e := GetExitDir(door, p);
             var s := GetExitDir(door, e);
             e in g && s in g && g[e].room.Some? && g[s].room.Some? &&
             (g[s].room == w.Leads(r, door) ==> Visit(s, depth + 1) in visits)
    ensures DoorDone(w, g, visits, p, depth, r, door)
  {
  }

  lemma VisitFinished(w: World, g0: Grid, v0: set<Visit>, g: Grid, visits: set<Visit>, v: Visit)
    requires Grows(w, g0, v0, g, visits, {v})
    requires IsRoomCell(v.p) && v.p in g && g[v.p].room.Some? && g[v.p].room.value in w.rooms
    requires v.depth < MAXDEPTH ==>
          forall door :: 0 <= door < 4 ==> DoorDone(w, g, visits, v.p, v.depth, g[v.p].room.value, door)
    ensures Grows(w, g0, v0, g, visits, {})
  {
    assert Finished(w, g, visits, v);
  }

  ghost function Uniform(c: Cell): (g: Grid)
    ensures IsGrid(g) && forall p :: p in g ==> g[p] == c
  {
    map x: int, y: int | 0 <= x <= 2 * MAPX && 0 <= y <= 2 * MAPY :: Pos(x, y) := c
  }

  // ---------------------------------------------------------------- the whole map

  /** At every cell of the walk the map shows the room the walk is in. */
  ghost predicate Agrees(w: World, start: RoomId, g: Grid, path: seq<int>) {
    && w.Walk(start, path).Some? && w.Walk(start, path).value in w.rooms
    && Place(path) in g && g[Place(path)].room == w.Walk(start, path)
    && (path != [] ==> Agrees(w, start, g, path[..|path| - 1]))
  }

  /** Wherever the map agrees with a walk of fewer than four steps, every visible compass exit is drawn, and
      its far cell is not empty: the map stops only at its depth or at a cell another room has taken. */
  ghost predicate Complete(w: World, start: RoomId, d0: int, g: Grid) {
    forall path, door ::
      (Agrees(w, start, g, path) && |path| < 4 - d0 && 0 <= door < 4 &&
       w.Leads(w.Walk(start, path).value, door).Some?)
      ==> ExitShown(g, Place(path), door)
  }

  ghost predicate ExitShown(g: Grid, p: Pos, door: int) {
    var e := GetExitDir(door, p);
    var s := GetExitDir(door, e);
    e in g && s in g && g[e].room.Some? && g[s].room.Some?
  }

  lemma {:induction false} AgreedIsVisited(w: World, start: RoomId, d0: int, g: Grid, visits: set<Visit>,
      path: seq<int>)
    requires Visit(CENTRE, d0) in visits && forall v :: v in visits ==> Finished(w, g, visits, v)
    requires Agrees(w, start, g, path) && |path| <= MAXDEPTH - d0
    ensures Visit(Place(path), d0 + |path|) in visits
    decreases |path|
  {
    if path != [] {
      var before, door := path[..|path| - 1], path[|path| - 1];
      AgreedIsVisited(w, start, d0, g, visits, before);
      var r := w.Walk(start, before).value;
      assert Finished(w, g, visits, Visit(Place(before), d0 + |before|));
      assert DoorDone(w, g, visits, Place(before), d0 + |before|, r, door);
    }
  }

  lemma AllFinishedIsComplete(w: World, start: RoomId, d0: int, g: Grid, visits: set<Visit>)
    requires Visit(CENTRE, d0) in visits && forall v :: v in visits ==> Finished(w, g, visits, v)
    ensures Complete(w, start, d0, g)
  {
    forall path, door | Agrees(w, start, g, path) && |path| < MAXDEPTH - d0 && 0 <= door < 4 &&
      w.Leads(w.Walk(start, path).value, door).Some?
      ensures ExitShown(g, Place(path), door)
    {
      AgreedIsVisited(w, start, d0, g, visits, path);
      var v := Visit(Place(path), d0 + |path|);
      assert Finished(w, g, visits, v);
      assert DoorDone(w, g, visits, v.p, v.depth, w.Walk(start, path).value, door);
    }
  }

  /** Only the symbol of the centre changes: the X that marks the viewer. */
  lemma MarkedStaysGood(w: World, start: RoomId, d0: int, g: Grid)
    requires Sound(w, start, d0, g) && CENTRE in g
    ensures var g' := g[CENTRE := g[CENTRE].(symbol := 'X')];
            Sound(w, start, d0, g') && (Complete(w, start, d0, g) ==> Complete(w, start, d0, g'))
  {
    var g' := g[CENTRE := g[CENTRE].(symbol := 'X')];
    forall p | p in g'
      ensures GoodCell(w, start, d0, g', p)
    {
      assert GoodCell(w, start, d0, g, p);
      if g[p].room.Some? && !IsRoomCell(p) {
        var q, d :| ShowsExit(w, g, p, g[p], q, d);
        assert ShowsExit(w, g', p, g'[p], q, d);
      } else if p == CENTRE && g[p].room.Some? {
        MarkedRoomIsGood(w, start, d0, g[p]);
      }
    }
    if Complete(w, start, d0, g) {
      forall path, door | Agrees(w, start, g', path) && |path| < MAXDEPTH - d0 && 0 <= door < 4 &&
        w.Leads(w.Walk(start, path).value, door).Some?
        ensures ExitShown(g', Place(path), door)
      {
        SameRoomsAgree(w, start, g', g, path);
        assert ExitShown(g, Place(path), door);
      }
    }
  }

  lemma MarkedRoomIsGood(w: World, start: RoomId, d0: int, c: Cell)
    requires GoodRoomCell(w, start, d0, CENTRE, c)
    ensures GoodRoomCell(w, start, d0, CENTRE, c.(symbol := 'X'))
  {
  }

  lemma {:induction false} SameRoomsAgree(w: World, start: RoomId, g: Grid, g': Grid, path: seq<int>)
    requires g.Keys == g'.Keys && forall p :: p in g ==> g'[p].room == g[p].room
    requires Agrees(w, start, g, path)
    ensures Agrees(w, start, g', path)
    decreases |path|
  {
    if path != [] {
      SameRoomsAgree(w, start, g, g', path[..|path| - 1]);
    }
  }

  // ---------------------------------------------------------------- the map in figures

  /** How many steps of a walk go through the door. */
  ghost function Steps(path: seq<int>, door: int): int {
    if path == [] then 0
    else Steps(path[..|path| - 1], door) + if path[|path| - 1] == door then 1 else 0
  }

  /** A walk through compass exits ends in the cell that its steps to the east and west, and to the south and north,
      add up to: east is to the right and south is down. */
  lemma {:induction false} WalkEndsAt(path: seq<int>)
    requires forall k :: 0 <= k < |path| ==> 0 <= path[k] < 4
    ensures Place(path) == Pos(10 + 2 * (Steps(path, 1) - Steps(path, 3)), 8 + 2 * (Steps(path, 2) - Steps(path, 0)))
    decreases |path|
  {
    if path != [] {
      var before, door := path[..|path| - 1], path[|path| - 1];
      WalkEndsAt(before);
      assert Place(path) == GetExitDir(door, GetExitDir(door, Place(before)));
      assert Steps(path, 0) == Steps(before, 0) + if door == 0 then 1 else 0;
      assert Steps(path, 1) == Steps(before, 1) + if door == 1 then 1 else 0;
      assert Steps(path, 2) == Steps(before, 2) + if door == 2 then 1 else 0;
      assert Steps(path, 3) == Steps(before, 3) + if door == 3 then 1 else 0;
      hide Steps, Place;
    }
  }

  /** Room r has an exit at the door through which the viewer sees a room. */
  predicate Opens(w: World, r: Option<RoomId>, door: nat, to: Option<RoomId>) {
    && r.Some? && r.value in w.rooms && door < |w.rooms[r.value].exits| && w.rooms[r.value].exits[door].Some?
    && w.rooms[r.value].exits[door].value.to == to && to.Some? && to.value in w.seen
  }

  /** The cell shows where the door leads, with the one symbol if it is open and the other if it is closed. */
  predicate ExitLooks(w: World, r: Option<RoomId>, door: nat, c: Cell, open: char, closed: char) {
    && Opens(w, r, door, c.room)
    && c.symbol == if w.rooms[r.value].exits[door].value.closed then closed else open
  }

  /** The four exits around (x, y) that may be drawn there: the north exit of the room below, the east exit of the room
      on the left, the south exit of the room above, or the west exit of the room on the right. */
  ghost predicate ExitOfNeighbour(w: World, g: Grid, x: int, y: int)
    requires Pos(x, y) in g
  {
    var c := g[Pos(x, y)];
    || (Pos(x, y + 1) in g && ExitLooks(w, g[Pos(x, y + 1)].room, 0, c, '|', 'I'))
    || (Pos(x - 1, y) in g && ExitLooks(w, g[Pos(x - 1, y)].room, 1, c, '-', '='))
    || (Pos(x, y - 1) in g && ExitLooks(w, g[Pos(x, y - 1)].room, 2, c, '|', 'I'))
    || (Pos(x + 1, y) in g && ExitLooks(w, g[Pos(x + 1, y)].room, 3, c, '-', '='))
  }

  /** Every exit cell shows an exit of a room next to it, on the side the exit lies. */
  ghost predicate ExitsInPlace(w: World, g: Grid) {
    forall x, y :: Pos(x, y) in g && !IsRoomCell(Pos(x, y)) && g[Pos(x, y)].room.Some? ==> ExitOfNeighbour(w, g, x, y)
  }

  lemma {:induction false} SoundExits(w: World, start: RoomId, d0: int, g: Grid)
    requires Sound(w, start, d0, g)
    ensures ExitsInPlace(w, g)
  {
    hide GoodRoomCell, ExitOfNeighbour;
    forall x, y | Pos(x, y) in g && !IsRoomCell(Pos(x, y)) && g[Pos(x, y)].room.Some?
      ensures ExitOfNeighbour(w, g, x, y)
    {
      var p := Pos(x, y);
      assert GoodCell(w, start, d0, g, p);
      var q, door :| ShowsExit(w, g, p, g[p], q, door);
      ExitBeside(w, g, p, q, door);
    }
  }

  lemma {:induction false} ExitBeside(w: World, g: Grid, p: Pos, q: Pos, door: int)
    requires p in g && ShowsExit(w, g, p, g[p], q, door)
    ensures ExitOfNeighbour(w, g, p.x, p.y)
  {
    assert Pos(p.x, p.y) == p;
    assert ExitLooks(w, g[q].room, door, g[p], MAP_CHARS[door], MAP_CHARS_CLOSED[door]);
  }

  /** The steps of a walk from the centre, in columns to the right and rows down. */
  ghost predicate WalkIs(w: World, start: RoomId, path: seq<int>, r: RoomId, p: Pos) {
    && w.Walk(start, path) == Some(r) && (forall k :: 0 <= k < |path| ==> 0 <= path[k] < 4)
    && p == Pos(10 + 2 * (Steps(path, 1) - Steps(path, 3)), 8 + 2 * (Steps(path, 2) - Steps(path, 0)))
  }

  /** Every room cell shows a room that a walk of so many steps leads to from the centre. */
  ghost predicate RoomsInPlace(w: World, start: RoomId, d0: int, g: Grid) {
    forall p :: p in g && IsRoomCell(p) && g[p].room.Some? ==>
      exists path :: WalkIs(w, start, path, g[p].room.value, p) && |path| == g[p].depth - d0
  }

  lemma {:induction false} WalksByDoors(w: World, start: RoomId, path: seq<int>)
    requires w.Walk(start, path).Some?
    ensures forall k :: 0 <= k < |path| ==> 0 <= path[k] < 4
    decreases |path|
  {
    if path != [] {
      WalksByDoors(w, start, path[..|path| - 1]);
    }
  }

  lemma {:induction false} SoundRooms(w: World, start: RoomId, d0: int, g: Grid)
    requires Sound(w, start, d0, g)
    ensures RoomsInPlace(w, start, d0, g)
  {
    hide GoodExitCell;
    forall p | p in g && IsRoomCell(p) && g[p].room.Some?
      ensures exists path :: WalkIs(w, start, path, g[p].room.value, p) && |path| == g[p].depth - d0
    {
      assert GoodCell(w, start, d0, g, p);
      var path :| WalkTo(w, start, path, p, g[p].room.value) && |path| == g[p].depth - d0;
      WalksByDoors(w, start, path);
      WalkEndsAt(path);
      assert WalkIs(w, start, path, g[p].room.value, p);
    }
  }

  predicate Taken(g: Grid, x: int, y: int) {
    Pos(x, y) in g && g[Pos(x, y)].room.Some?
  }

  /** What the viewer's room opens to is drawn next to it, and the cell behind it is taken: above it for the north, on
      its right for the east, below it for the south and on its left for the west. */
  ghost predicate NeighboursShown(w: World, r: Option<RoomId>, g: Grid) {
    forall to ::
      && (Opens(w, r, 0, to) ==> Taken(g, 10, 7) && Taken(g, 10, 6))
      && (Opens(w, r, 1, to) ==> Taken(g, 11, 8) && Taken(g, 12, 8))
      && (Opens(w, r, 2, to) ==> Taken(g, 10, 9) && Taken(g, 10, 10))
      && (Opens(w, r, 3, to) ==> Taken(g, 9, 8) && Taken(g, 8, 8))
  }

  lemma {:induction false} CompleteNeighbours(w: World, start: RoomId, d0: int, g: Grid)
    requires Complete(w, start, d0, g) && d0 < MAXDEPTH && start in w.rooms && start in w.seen
    requires CENTRE in g && g[CENTRE].room == Some(start)
    ensures NeighboursShown(w, Some(start), g)
  {
    var none: seq<int> := [];
    assert Agrees(w, start, g, none);
    forall door, to | 0 <= door < 4 && Opens(w, Some(start), door, to)
      ensures ExitShown(g, CENTRE, door)
    {
      assert ExitShown(g, Place(none), door);
    }
    hide Complete, Agrees;
    forall to
      ensures Opens(w, Some(start), 0, to) ==> Taken(g, 10, 7) && Taken(g, 10, 6)
      ensures Opens(w, Some(start), 1, to) ==> Taken(g, 11, 8) && Taken(g, 12, 8)
      ensures Opens(w, Some(start), 2, to) ==> Taken(g, 10, 9) && Taken(g, 10, 10)
      ensures Opens(w, Some(start), 3, to) ==> Taken(g, 9, 8) && Taken(g, 8, 8)
    {
      if Opens(w, Some(start), 0, to) { assert ExitShown(g, CENTRE, 0); }
      if Opens(w, Some(start), 1, to) { assert ExitShown(g, CENTRE, 1); }
      if Opens(w, Some(start), 2, to) { assert ExitShown(g, CENTRE, 2); }
      if Opens(w, Some(start), 3, to) { assert ExitShown(g, CENTRE, 3); }
    }
  }

  /** Each sector's symbol, by the sector's number. */
  predicate SectorLooks(sector: nat, symbol: char) {
    match symbol
    case 'o' => sector == 0 || sector == 1
    case '*' => sector == 2 || sector == 3
    case '!' => sector == 4
    case '@' => sector == 5
    case '=' => sector == 6 || sector == 7
    case '%' => sector == 8
    case '+' => sector == 9
    case '&' => sector == 10 || sector == 14
    case ':' => sector == 11 || sector == 12
    case '#' => sector == 13
    case '?' => sector == 15
    case _ => false
  }

  /** Every room cell but the viewer's shows the symbol of its room's sector. */
  ghost predicate SectorsShown(w: World, g: Grid) {
    forall x, y :: Taken(g, x, y) && IsRoomCell(Pos(x, y)) && Pos(x, y) != Pos(10, 8) ==>
      && g[Pos(x, y)].room.value in w.rooms
      && SectorLooks(w.rooms[g[Pos(x, y)].room.value].sector, g[Pos(x, y)].symbol)
  }

  /** draw_map, up to the printing: the map is sound and complete for the viewer's room. */
  method DrawMap(world: World, inRoom: Option<RoomId>, smallMap: bool) returns (m: Map)
    requires world.Valid() && (inRoom.Some? ==> inRoom.value in world.rooms)
    ensures fresh(m) && m.Valid()
    ensures if inRoom.Some? && inRoom.value in world.seen
            then var d0 := if smallMap then 2 else 0;
                 && Sound(world, inRoom.value, d0, m.grid)
                 && Complete(world, inRoom.value, d0, m.grid)
                 && m.grid[CENTRE].room == inRoom
                 && RoomsInPlace(world, inRoom.value, d0, m.grid) && ExitsInPlace(world, m.grid)
                 && NeighboursShown(world, inRoom, m.grid) && SectorsShown(world, m.grid)
            else forall p :: p in m.grid ==> m.grid[p].room == None
    ensures m.grid[CENTRE].symbol == 'X'
  {
    hide Sound, RoomSymbols, GoodRoomCell, Finished, Complete, RoomsInPlace, ExitsInPlace, NeighboursShown,
      SectorsShown;
    var depth := if smallMap then 2 else 0;
    var start := if inRoom.Some? then inRoom.value else 0;
    m := new Map(world, start, depth);
    m.Clear();
    ghost var blank := m.grid;
    BlankIsSound(world, start, depth, m.grid);
    assert inRoom.Some? && start in world.seen ==> WalkTo(world, start, [], CENTRE, start);
    m.MapExits(depth, inRoom, CENTRE, []);
    if inRoom.Some? && start in world.seen {
      NewVisitsFinished(world, blank, m.grid, m.visits);
      AllFinishedIsComplete(world, start, depth, m.grid, m.visits);
    }
    MarkedStaysGood(world, start, depth, m.grid);
    var c := m.cells[MAPX, MAPY].(symbol := 'X');
    SymbolsOfRooms(world, start, depth, m.grid, c);
    m.Write(CENTRE, c);
    if inRoom.Some? && start in world.seen {
      SoundRooms(world, start, depth, m.grid);
      SoundExits(world, start, depth, m.grid);
      CompleteNeighbours(world, start, depth, m.grid);
    }
  }

  lemma BlankIsSound(w: World, start: RoomId, d0: int, g: Grid)
    requires IsGrid(g) && forall p :: p in g ==> g[p].room == None
    ensures Sound(w, start, d0, g) && RoomSymbols(w, g)
  {
  }

  lemma NewVisitsFinished(w: World, g0: Grid, g: Grid, visits: set<Visit>)
    requires Grows(w, g0, {}, g, visits, {})
    ensures forall v :: v in visits ==> Finished(w, g, visits, v)
  {
  }

  lemma {:induction false} SymbolsOfRooms(w: World, start: RoomId, d0: int, g: Grid, c: Cell)
    requires Sound(w, start, d0, g) && RoomSymbols(w, g)
    ensures SectorsShown(w, g[CENTRE := c])
  {
    forall x, y | Taken(g, x, y) && IsRoomCell(Pos(x, y))
      ensures g[Pos(x, y)].room.value in w.rooms
      ensures SectorLooks(w.rooms[g[Pos(x, y)].room.value].sector, g[Pos(x, y)].symbol)
    {
      assert GoodCell(w, start, d0, g, Pos(x, y));
    }
  }
}
