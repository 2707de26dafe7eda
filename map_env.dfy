/**
 * The grid navigation environment `MapEnv` (backend/rl_nav.py). The grid
 * is an integer array changed in place, with the codes 0 free, 1 obstacle,
 * 2 goal and 3 agent. The random obstacle draws of `reset_random` and the
 * occupancy map of `load_from_occ` are inputs.
 *
 * `step` reads the agent position as `y, x` but stores it back as `[x, y]`;
 * the class reproduces that, and `StepSpec` specifies it. `StepIntended` is
 * the same step read as `x, y`, the convention the goal and the resets use.
 */
module Navigation {

  const Free := 0
  const Obstacle := 1
  const Goal := 2
  const Agent := 3

  /** A grid as rows of cells: `board[y][x]`. */
  type Board = seq<seq<int>>

  /** `rows` rows of `cols` cells each. */
  ghost predicate Rect(b: Board, rows: nat, cols: nat) {
    |b| == rows && forall i :: 0 <= i < rows ==> |b[i]| == cols
  }

  /** The two-element list `agent_pos` / `goal_pos`, in its stored order. */
  datatype Pos = Pos(first: int, second: int)

  /** The cells of a 2-D array, row by row. */
  function Contents(a: array2<int>): (b: Board)
    reads a
    ensures Rect(b, a.Length0, a.Length1)
    ensures forall i, j :: 0 <= i < a.Length0 && 0 <= j < a.Length1 ==> b[i][j] == a[i, j]
  {
    seq(a.Length0, i requires 0 <= i < a.Length0 reads a =>
      seq(a.Length1, j requires 0 <= j < a.Length1 reads a => a[i, j]))
  }

  /** Two boards of the same shape are equal once they agree on every cell. */
  lemma SameBoard(a: Board, b: Board, rows: nat, cols: nat)
    requires Rect(a, rows, cols) && Rect(b, rows, cols)
    requires forall i, j :: 0 <= i < rows && 0 <= j < cols ==> a[i][j] == b[i][j]
    ensures a == b
  {
    forall i | 0 <= i < rows
      ensures a[i] == b[i]
    {
      assert forall j :: 0 <= j < cols ==> a[i][j] == b[i][j];
    }
  }

  /** The board with cell (y, x) set to `v`. */
  function Set(b: Board, y: nat, x: nat, v: int): (c: Board)
    requires y < |b| && x < |b[y]|
    ensures |c| == |b| && forall i :: 0 <= i < |b| ==> |c[i]| == |b[i]|
    ensures forall i, j :: 0 <= i < |b| && 0 <= j < |b[i]| ==>
              c[i][j] == if i == y && j == x then v else b[i][j]
  {
    b[y := b[y][x := v]]
  }

  /** The move of `step`: one cell in the action's direction, unless that leaves [0, n-1]. */
  function Move(y: int, x: int, n: int, action: int): (p: (int, int)) {
    if action == 0 && y > 0 then (y - 1, x)
    else if action == 1 && y < n - 1 then (y + 1, x)
    else if action == 2 && x > 0 then (y, x - 1)
    else if action == 3 && x < n - 1 then (y, x + 1)
    else (y, x)
  }

  /** What entering a cell gives: an obstacle ends the episode with -1, the goal with +1. */
  function Reward(cell: int): real {
    if cell == Obstacle then -1.0 else if cell == Goal then 1.0 else -0.01
  }

  predicate Terminal(cell: int) {
    cell == Obstacle || cell == Goal
  }

  /** Everything `step` produces: the new grid, position and counter, the reward and `done`. */
  datatype Outcome = Outcome(board: Board, pos: Pos, steps: int, reward: real, done: bool)

  /** The environment's invariant on a board of n rows: a square n x n area is in use, with the agent inside it. */
  ghost predicate Placed(b: Board, n: nat, cols: nat, pos: Pos) {
    Rect(b, n, cols) && n <= cols && 0 <= pos.first < n && 0 <= pos.second < n
  }

  /** `step` as written: position read as (y, x), the read cell cleared, the entered cell set to 3, stored as [x, y]. */
  function StepSpec(b: Board, n: nat, cols: nat, pos: Pos, steps: int, action: int): (o: Outcome)
    requires Placed(b, n, cols, pos)
    ensures Placed(o.board, n, cols, o.pos)
  {
    var y, x := pos.first, pos.second;
    var cleared := Set(b, y, x, Free);
    var (ny, nx) := Move(y, x, n, action);
    var cell := cleared[ny][nx];
    Outcome(Set(cleared, ny, nx, Agent), Pos(nx, ny), steps + 1,
            Reward(cell), Terminal(cell) || steps + 1 >= n * n)
  }

  /** A step counts exactly one step. */
  lemma StepCounts(b: Board, n: nat, cols: nat, pos: Pos, steps: int, action: int)
    requires Placed(b, n, cols, pos)
    ensures StepSpec(b, n, cols, pos, steps, action).steps == steps + 1
  {
  }

  /**
   * The read position moves by one cell exactly when the action is 0..3 and
   * the move stays inside [0, n-1]; otherwise it stays put.
   */
  lemma MoveStaysInside(y: int, x: int, n: int, action: int)
    requires 0 <= y < n && 0 <= x < n
    ensures var (ny, nx) := Move(y, x, n, action);
      0 <= ny < n && 0 <= nx < n
      && (action == 0 && y > 0 <==> ny == y - 1)
      && (action == 1 && y < n - 1 <==> ny == y + 1)
      && (action == 2 && x > 0 <==> nx == x - 1)
      && (action == 3 && x < n - 1 <==> nx == x + 1)
      && (!(0 <= action <= 3) ==> ny == y && nx == x)
      && (ny == y || nx == x)
  {
  }

  /**
   * Entering an obstacle gives -1 and ends the episode, the goal +1 and
   * ends it, anything else -0.01; the step limit n * n also ends it.
   */
  lemma StepReward(b: Board, n: nat, cols: nat, pos: Pos, steps: int, action: int)
    requires Placed(b, n, cols, pos)
    ensures var o := StepSpec(b, n, cols, pos, steps, action);
      var (ny, nx) := Move(pos.first, pos.second, n, action);
      var cell := if (ny, nx) == (pos.first, pos.second) then Free else b[ny][nx];
      o.reward == Reward(cell)
      && (o.done <==> Terminal(cell) || steps + 1 >= n * n)
  {
  }

  /** The read cell becomes free, the entered cell holds the agent, and no other cell changes. */
  lemma StepFrame(b: Board, n: nat, cols: nat, pos: Pos, steps: int, action: int)
    requires Placed(b, n, cols, pos)
    ensures var o := StepSpec(b, n, cols, pos, steps, action);
      var (ny, nx) := Move(pos.first, pos.second, n, action);
      o.board[ny][nx] == Agent
      && ((ny, nx) != (pos.first, pos.second) ==> o.board[pos.first][pos.second] == Free)
      && forall i, j :: 0 <= i < n && 0 <= j < cols && (i, j) != (ny, nx) && (i, j) != (pos.first, pos.second)
                   ==> o.board[i][j] == b[i][j]
  {
  }

  /** The cell that holds the agent, as the resets and the goal place it: `grid[pos[1], pos[0]]`. */
  ghost predicate OneAgentAt(b: Board, n: nat, cols: nat, pos: Pos) {
    Placed(b, n, cols, pos) && 0 <= pos.first < n && 0 <= pos.second < n
    && b[pos.second][pos.first] == Agent
    && forall i, j :: 0 <= i < n && 0 <= j < cols && b[i][j] == Agent ==> i == pos.second && j == pos.first
  }

  /** An all-free 3 x 3 board with the agent at (0, 0) and the goal in the far corner. */
  const Start3: Board := [[Agent, Free, Free], [Free, Free, Free], [Free, Free, Goal]]

  /**
   * As written, two moves to the right from the corner leave two agent
   * cells: the second step clears (1, 0) instead of (0, 1).
   */
  lemma TwoStepsLeaveTwoAgents()
    ensures OneAgentAt(Start3, 3, 3, Pos(0, 0))
    ensures var o1 := StepSpec(Start3, 3, 3, Pos(0, 0), 0, 3);
      var o2 := StepSpec(o1.board, 3, 3, o1.pos, o1.steps, 3);
      o2.board[0][1] == Agent && o2.board[1][1] == Agent && !OneAgentAt(o2.board, 3, 3, o2.pos)
  {
    var o1 := StepSpec(Start3, 3, 3, Pos(0, 0), 0, 3);
    assert o1.pos == Pos(1, 0);
    assert o1.board[0][0] == Free && o1.board[0][1] == Agent && o1.board[1][0] == Free;
    var o2 := StepSpec(o1.board, 3, 3, o1.pos, o1.steps, 3);
    assert o2.pos == Pos(1, 1);
    assert o2.board[0][1] == Agent && o2.board[1][1] == Agent;
  }

  /** `step` reading the position as `x, y`, consistently with how it is stored. */
  function StepIntended(b: Board, n: nat, cols: nat, pos: Pos, steps: int, action: int): (o: Outcome)
    requires Placed(b, n, cols, pos)
    ensures Placed(o.board, n, cols, o.pos)
  {
    var x, y := pos.first, pos.second;
    var cleared := Set(b, y, x, Free);
    var (ny, nx) := Move(y, x, n, action);
    var cell := cleared[ny][nx];
    Outcome(Set(cleared, ny, nx, Agent), Pos(nx, ny), steps + 1,
            Reward(cell), Terminal(cell) || steps + 1 >= n * n)
  }

  /** The intended step keeps exactly one agent cell, at the stored position. */
  lemma IntendedKeepsOneAgent(b: Board, n: nat, cols: nat, pos: Pos, steps: int, action: int)
    requires OneAgentAt(b, n, cols, pos)
    ensures var o := StepIntended(b, n, cols, pos, steps, action);
      OneAgentAt(o.board, n, cols, o.pos)
  {
  }

  /** Cell (y, x) was hit by one of the obstacle draws, each drawn as (x, y). */
  predicate Drawn(obstacles: seq<(int, int)>, y: int, x: int) {
    (x, y) in obstacles
  }

  /** The board `reset_random` builds: the drawn obstacles, then the goal, then the agent. */
  function ResetBoard(n: nat, obstacles: seq<(int, int)>): (b: Board)
    requires n >= 1
    ensures Rect(b, n, n)
  {
    Set(Set(DrawnBoard(n, obstacles), n - 1, n - 1, Goal), 0, 0, Agent)
  }

  /** An obstacle at every drawn cell, free elsewhere. */
  function DrawnBoard(n: nat, obstacles: seq<(int, int)>): (b: Board)
    ensures Rect(b, n, n)
  {
    seq(n, i requires 0 <= i < n =>
      seq(n, j requires 0 <= j < n => if Drawn(obstacles, i, j) then Obstacle else Free))
  }

  /**
   * After `reset_random` the agent is at (0, 0) and the goal at (n-1, n-1)
   * whatever was drawn there; every other cell is an obstacle exactly when
   * it was drawn, and free otherwise.
   */
  lemma ResetLayout(n: nat, obstacles: seq<(int, int)>)
    requires n >= 1
    ensures var b := ResetBoard(n, obstacles);
      b[0][0] == Agent && (n > 1 ==> b[n - 1][n - 1] == Goal)
      && forall i, j :: 0 <= i < n && 0 <= j < n && (i, j) != (0, 0) && (i, j) != (n - 1, n - 1) ==>
           (b[i][j] == Obstacle <==> Drawn(obstacles, i, j))
           && (b[i][j] == Obstacle || b[i][j] == Free)
  {
  }

  /** After a reset the agent is the only agent cell. */
  lemma ResetOneAgent(n: nat, obstacles: seq<(int, int)>)
    requires n >= 1
    ensures OneAgentAt(ResetBoard(n, obstacles), n, n, Pos(0, 0))
  {
  }

  /** An obstacle exactly where the map holds 1, free elsewhere. */
  function Marked(occ: Board, rows: nat, cols: nat): (b: Board)
    requires Rect(occ, rows, cols)
    ensures Rect(b, rows, cols)
  {
    seq(rows, i requires 0 <= i < rows =>
      seq(cols, j requires 0 <= j < cols => if occ[i][j] == 1 then Obstacle else Free))
  }

  /** The board `load_from_occ` builds: obstacle exactly where the map holds 1, then the goal and the agent. */
  function OccBoard(occ: Board, rows: nat, cols: nat): (b: Board)
    requires Rect(occ, rows, cols) && 1 <= rows <= cols
    ensures Rect(b, rows, cols)
  {
    Set(Set(Marked(occ, rows, cols), rows - 1, rows - 1, Goal), 0, 0, Agent)
  }

  /** Every map label other than 1 becomes free; the corners hold the agent and the goal. */
  lemma OccLayout(occ: Board, rows: nat, cols: nat)
    requires Rect(occ, rows, cols) && 1 <= rows <= cols
    ensures var b := OccBoard(occ, rows, cols);
      b[0][0] == Agent && (rows > 1 ==> b[rows - 1][rows - 1] == Goal)
      && forall i, j :: 0 <= i < rows && 0 <= j < cols && (i, j) != (0, 0) && (i, j) != (rows - 1, rows - 1) ==>
           (b[i][j] == Obstacle <==> occ[i][j] == 1) && (b[i][j] == Obstacle || b[i][j] == Free)
  {
  }

  class MapEnv {
    var gridSize: nat
    var grid: array2<int>
    var agentPos: Pos
    var goalPos: Pos
    var steps: int

    /** The square n x n area in use lies inside the grid (it is all of it unless a map was wider than tall), and the agent is inside. */
    ghost predicate Valid()
      reads this
    {
      1 <= gridSize && grid.Length0 == gridSize <= grid.Length1
      && 0 <= agentPos.first < gridSize && 0 <= agentPos.second < gridSize
    }

    /** `__init__`: a random environment of the given size. */
    constructor (n: nat, obstacles: seq<(int, int)>)
      requires n >= 1
      requires |obstacles| == 3 * n
      requires forall k :: 0 <= k < |obstacles| ==> 0 <= obstacles[k].0 < n && 0 <= obstacles[k].1 < n
      ensures Valid() && gridSize == n
      ensures Contents(grid) == ResetBoard(n, obstacles)
      ensures agentPos == Pos(0, 0) && goalPos == Pos(n - 1, n - 1) && steps == 0
    {
      gridSize := n;
      var g := ResetGrid(n, obstacles);
      grid := g;
      agentPos := Pos(0, 0);
      goalPos := Pos(n - 1, n - 1);
      steps := 0;
    }

    /** `reset_random`, with the 3n draws `(x, y)` given; returns a copy of the new grid. */
    method ResetRandom(obstacles: seq<(int, int)>) returns (snapshot: array2<int>)
      requires Valid()
      requires |obstacles| == 3 * gridSize
      requires forall k :: 0 <= k < |obstacles| ==> 0 <= obstacles[k].0 < gridSize && 0 <= obstacles[k].1 < gridSize
      modifies this
      ensures Valid() && gridSize == old(gridSize) && fresh(grid)
      ensures Contents(grid) == ResetBoard(gridSize, obstacles)
      ensures agentPos == Pos(0, 0) && goalPos == Pos(gridSize - 1, gridSize - 1) && steps == 0
      ensures fresh(snapshot) && Contents(snapshot) == Contents(grid)
    {
      var n := gridSize;
      grid := ResetGrid(n, obstacles);
      agentPos := Pos(0, 0);
      goalPos := Pos(n - 1, n - 1);
      steps := 0;
      snapshot := Copy(grid);
    }

    /** `load_from_occ`: obstacles exactly where the map holds 1; returns a copy of the new grid. */
    method LoadFromOcc(occ: array2<int>) returns (snapshot: array2<int>)
      requires 1 <= occ.Length0 <= occ.Length1
      modifies this
      ensures Valid() && gridSize == occ.Length0 && fresh(grid)
      ensures Contents(grid) == OccBoard(Contents(occ), occ.Length0, occ.Length1)
      ensures agentPos == Pos(0, 0) && goalPos == Pos(gridSize - 1, gridSize - 1) && steps == 0
      ensures fresh(snapshot) && Contents(snapshot) == Contents(grid)
    {
      var n := occ.Length0;
      gridSize := n;
      grid := OccGrid(occ);
      agentPos := Pos(0, 0);
      goalPos := Pos(n - 1, n - 1);
      steps := 0;
      snapshot := Copy(grid);
    }

    /** `step(action)`, exactly as written; returns a copy of the grid, the reward and `done`. */
    method Step(action: int) returns (snapshot: array2<int>, reward: real, done: bool)
      requires Valid()
      modifies this, grid
      ensures Valid() && grid == old(grid) && gridSize == old(gridSize) && goalPos == old(goalPos)
      ensures var o := StepSpec(old(Contents(grid)), gridSize, grid.Length1, old(agentPos), old(steps), action);
        Contents(grid) == o.board && agentPos == o.pos && steps == o.steps
        && reward == o.reward && done == o.done
      ensures fresh(snapshot) && Contents(snapshot) == Contents(grid)
    {
      ghost var o := StepSpec(Contents(grid), gridSize, grid.Length1, agentPos, steps, action);
      steps := steps + 1;
      var y, x := agentPos.first, agentPos.second;
      Put(grid, y, x, Free);
      y, x := Moved(y, x, gridSize, action);
      var cell := grid[y, x];
      reward, done := Score(cell);
      agentPos := Pos(x, y);
      Put(grid, y, x, Agent);
      if steps >= gridSize * gridSize {
        done := true;
      }
      snapshot := Copy(grid);
    }
  }

  /** The movement branch of `step`. */
  method Moved(y: int, x: int, n: int, action: int) returns (ny: int, nx: int)
    ensures (ny, nx) == Move(y, x, n, action)
  {
    ny, nx := y, x;
    if action == 0 && y > 0 {
      ny := y - 1;
    } else if action == 1 && y < n - 1 {
      ny := y + 1;
    } else if action == 2 && x > 0 {
      nx := x - 1;
    } else if action == 3 && x < n - 1 {
      nx := x + 1;
    }
  }

  /** The reward branch of `step` for the entered cell. */
  method Score(cell: int) returns (reward: real, done: bool)
    ensures reward == Reward(cell) && done == Terminal(cell)
  {
    reward := -0.01;
    done := false;
    if cell == Obstacle {
      reward := -1.0;
      done := true;
    } else if cell == Goal {
      reward := 1.0;
      done := true;
    }
  }

  /** The grid `reset_random` fills in: the drawn obstacles, then the goal, then the agent. */
  method ResetGrid(n: nat, obstacles: seq<(int, int)>) returns (g: array2<int>)
    requires n >= 1
    requires forall k :: 0 <= k < |obstacles| ==> 0 <= obstacles[k].0 < n && 0 <= obstacles[k].1 < n
    ensures fresh(g) && g.Length0 == n && g.Length1 == n
    ensures Contents(g) == ResetBoard(n, obstacles)
  {
    g := DrawObstacles(n, obstacles);
    SameBoard(Contents(g), DrawnBoard(n, obstacles), n, n);
    Put(g, n - 1, n - 1, Goal);
    Put(g, 0, 0, Agent);
  }

  /** The grid `load_from_occ` fills in: the marked map, then the goal, then the agent. */
  method OccGrid(occ: array2<int>) returns (g: array2<int>)
    requires 1 <= occ.Length0 <= occ.Length1
    ensures fresh(g) && g.Length0 == occ.Length0 && g.Length1 == occ.Length1
    ensures Contents(g) == OccBoard(Contents(occ), occ.Length0, occ.Length1)
  {
    g := MarkOccupied(occ);
    var n := g.Length0;
    Put(g, n - 1, n - 1, Goal);
    Put(g, 0, 0, Agent);
  }

  /** A zero grid with a 1 at every drawn (x, y): the obstacle loop of `reset_random`. */
  method DrawObstacles(n: nat, obstacles: seq<(int, int)>) returns (g: array2<int>)
    requires forall k :: 0 <= k < |obstacles| ==> 0 <= obstacles[k].0 < n && 0 <= obstacles[k].1 < n
    ensures fresh(g) && g.Length0 == n && g.Length1 == n
    ensures forall i, j :: 0 <= i < n && 0 <= j < n ==>
              g[i, j] == if Drawn(obstacles, i, j) then Obstacle else Free
  {
    g := new int[n, n]((i, j) => Free);
    for k := 0 to |obstacles|
      invariant forall i, j :: 0 <= i < n && 0 <= j < n ==>
                  g[i, j] == if Drawn(obstacles[..k], i, j) then Obstacle else Free
    {
      var (x, y) := obstacles[k];
      g[y, x] := Obstacle;
      assert obstacles[..k + 1] == obstacles[..k] + [obstacles[k]];
    }
    assert obstacles[..|obstacles|] == obstacles;
  }

  /** `ndarray.copy`: a new array with the same cells. */
  method Copy(a: array2<int>) returns (c: array2<int>)
    ensures fresh(c) && Contents(c) == Contents(a)
  {
    c := new int[a.Length0, a.Length1]((i, j) reads a =>
      if 0 <= i < a.Length0 && 0 <= j < a.Length1 then a[i, j] else 0);
    SameBoard(Contents(c), Contents(a), a.Length0, a.Length1);
  }

  /** `np.zeros_like(occ)` with `g[occ == 1] = 1`. */
  method MarkOccupied(occ: array2<int>) returns (g: array2<int>)
    ensures fresh(g) && g.Length0 == occ.Length0 && g.Length1 == occ.Length1
    ensures Contents(g) == Marked(Contents(occ), occ.Length0, occ.Length1)
  {
    g := new int[occ.Length0, occ.Length1]((i, j) reads occ =>
      if 0 <= i < occ.Length0 && 0 <= j < occ.Length1 && occ[i, j] == 1 then Obstacle else Free);
    SameBoard(Contents(g), Marked(Contents(occ), occ.Length0, occ.Length1), occ.Length0, occ.Length1);
  }

  /** One cell assignment `a[y, x] = v`. */
  method Put(a: array2<int>, y: nat, x: nat, v: int)
    requires y < a.Length0 && x < a.Length1
    modifies a
    ensures Contents(a) == Set(old(Contents(a)), y, x, v)
  {
    ghost var before := Contents(a);
    a[y, x] := v;
    SameBoard(Contents(a), Set(before, y, x, v), a.Length0, a.Length1);
  }
}
