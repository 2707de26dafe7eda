/**
 * The episode statistics controller of the navigation page
 * (frontend/src/components/RLView.jsx). The React state cells become the
 * fields of class `RLView`; every handler becomes a method that takes the
 * server's reply as an input. The same transitions are written as pure
 * functions on a `View` value, which the methods are proved against and
 * about which the run lemmas are stated.
 */
module EpisodeView {
  import opened Wrappers

  /** The occupancy grid the server sends back; only passed along. */
  type Grid = seq<seq<int>>

  /** The reply of the step endpoint. */
  datatype StepReply = StepReply(grid: Grid, action: int, reward: real, done: bool)

  /** The `stats` state cell. */
  datatype Stats = Stats(steps: int, totalReward: real, episodes: int)

  /** All state cells of the controller, as one value. */
  datatype View = View(stats: Stats, lastAction: int, episodeDone: bool, auto: bool, grid: Option<Grid>)

  /** The state on mount: no grid, zero stats, no action, auto-run off. */
  const Initial := View(Stats(0, 0.0, 0), -1, false, false, None)

  /** `resetStatsForNewEpisode(keepEpisodes)`. */
  function ResetStats(v: View, keepEpisodes: bool): (w: View) {
    v.(stats := Stats(0, 0.0, if keepEpisodes then v.stats.episodes else 0),
       episodeDone := false, lastAction := -1)
  }

  /** The initial load: the grid arrives and the stats reset without keeping the episode count. */
  function InitialLoad(v: View, g: Grid): (w: View) {
    ResetStats(v.(grid := Some(g)), false)
  }

  /** `handleResetRandom` and `handleResetFromMap`: new grid, stats reset keeping episodes, auto-run off. */
  function Reset(v: View, g: Grid): (w: View) {
    ResetStats(v.(grid := Some(g)), true).(auto := false)
  }

  /** `handleStep`, and the body of an auto-run tick once it has called the step endpoint. */
  function Step(v: View, r: StepReply): (w: View) {
    var counted := v.(grid := Some(r.grid), lastAction := r.action,
                      stats := v.stats.(steps := v.stats.steps + 1,
                                        totalReward := v.stats.totalReward + r.reward));
    if r.done then
      counted.(episodeDone := true, auto := false,
               stats := counted.stats.(episodes := counted.stats.episodes + 1))
    else counted
  }

  /** Whether an auto-run tick calls the step endpoint at all. */
  predicate TickSteps(v: View) {
    !v.episodeDone
  }

  /** One auto-run tick: stop when the episode is over, otherwise one step. */
  function Tick(v: View, r: StepReply): (w: View) {
    if TickSteps(v) then Step(v, r) else v.(auto := false)
  }

  /** `handleStartAuto`: nothing without a grid, otherwise a new episode flag and auto-run on. */
  function StartAuto(v: View): (w: View) {
    if v.grid.None? then v else v.(episodeDone := false, auto := true)
  }

  /** `handleStopAuto`. */
  function StopAuto(v: View): (w: View) {
    v.(auto := false)
  }

  /** The Step button is disabled while auto-run is on. */
  predicate CanStep(v: View) { !v.auto }

  /** The Start button is shown when auto-run is off and is disabled after an episode or without a grid. */
  predicate CanStart(v: View) { !v.auto && !v.episodeDone && v.grid.Some? }

  /** The Stop button is shown only while auto-run is on. */
  predicate CanStop(v: View) { v.auto }

  /** What the user (or the timer) can do. */
  datatype Event =
    | Mounted(g: Grid)
    | ResetPressed(g: Grid)
    | StepPressed(r: StepReply)
    | Ticked(r: StepReply)
    | StartPressed
    | StopPressed

  /** An event can happen: a button that is enabled, or a tick while auto-run is on. */
  predicate Enabled(v: View, e: Event) {
    match e
    case Mounted(_) => true
    case ResetPressed(_) => true
    case StepPressed(_) => CanStep(v)
    case Ticked(_) => v.auto
    case StartPressed => CanStart(v)
    case StopPressed => CanStop(v)
  }

  function Apply(v: View, e: Event): (w: View) {
    match e
    case Mounted(g) => InitialLoad(v, g)
    case ResetPressed(g) => Reset(v, g)
    case StepPressed(r) => Step(v, r)
    case Ticked(r) => Tick(v, r)
    case StartPressed => StartAuto(v)
    case StopPressed => StopAuto(v)
  }

  /** The state after a sequence of events, applied in order. */
  function Run(v: View, es: seq<Event>): (w: View)
    decreases |es|
  {
    if es == [] then v else Apply(Run(v, es[..|es| - 1]), es[|es| - 1])
  }

  /**
   * The controller's invariant: auto-run is never on after a finished
   * episode, and is on only with a grid.
   */
  predicate Consistent(v: View) {
    !(v.auto && v.episodeDone) && (v.auto ==> v.grid.Some?)
  }

  lemma ResetKeepsEpisodes(v: View, g: Grid)
    ensures var w := Reset(v, g);
      w.stats == Stats(0, 0.0, v.stats.episodes) && w.lastAction == -1
      && !w.episodeDone && !w.auto && w.grid == Some(g)
  {
  }

  lemma InitialLoadClearsEpisodes(v: View, g: Grid)
    ensures var w := InitialLoad(v, g);
      w.stats == Stats(0, 0.0, 0) && w.lastAction == -1 && !w.episodeDone
      && w.auto == v.auto && w.grid == Some(g)
  {
  }

  /**
   * A step counts exactly one step, adds the reward and records the action;
   * a finished episode is counted once and stops auto-run. A manual step is
   * not guarded by `episodeDone`.
   */
  lemma StepEffect(v: View, r: StepReply)
    ensures var w := Step(v, r);
      w.stats.steps == v.stats.steps + 1
      && w.stats.totalReward == v.stats.totalReward + r.reward
      && w.lastAction == r.action && w.grid == Some(r.grid)
      && w.stats.episodes == v.stats.episodes + (if r.done then 1 else 0)
      && w.episodeDone == (v.episodeDone || r.done)
      && w.auto == (v.auto && !r.done)
  {
  }

  /** A tick after the episode finished only turns auto-run off. */
  lemma TickWhenDone(v: View, r: StepReply)
    requires v.episodeDone
    ensures !TickSteps(v) && Tick(v, r) == v.(auto := false)
  {
  }

  lemma StartAutoEffect(v: View)
    ensures v.grid.None? ==> StartAuto(v) == v
    ensures v.grid.Some? ==> StartAuto(v) == v.(episodeDone := false, auto := true)
  {
  }

  /** Stopping leaves the statistics and everything else but `auto` as they were. */
  lemma StopAutoEffect(v: View)
    ensures StopAuto(v).stats == v.stats && !StopAuto(v).auto
    ensures StopAuto(v).(auto := v.auto) == v
  {
  }

  /** Every event keeps the invariant, whether or not its button was enabled. */
  lemma ApplyConsistent(v: View, e: Event)
    requires Consistent(v)
    ensures Consistent(Apply(v, e))
  {
  }

  /** From the state on mount, every run of events keeps the invariant. */
  lemma {:induction false} RunConsistent(v: View, es: seq<Event>)
    requires Consistent(v)
    ensures Consistent(Run(v, es))
    decreases |es|
  {
    if es != [] {
      RunConsistent(v, es[..|es| - 1]);
      ApplyConsistent(Run(v, es[..|es| - 1]), es[|es| - 1]);
    }
  }

  /** Hence a tick that fires while auto-run is on always calls the step endpoint. */
  lemma {:induction false} EnabledTickSteps(es: seq<Event>, r: StepReply)
    requires Enabled(Run(Initial, es), Ticked(r))
    ensures TickSteps(Run(Initial, es))
    ensures Tick(Run(Initial, es), r) == Step(Run(Initial, es), r)
  {
    RunConsistent(Initial, es);
  }

  /** No event but the initial load lowers the episode count. */
  lemma {:induction false} EpisodesNeverDecrease(v: View, es: seq<Event>)
    requires forall k :: 0 <= k < |es| ==> !es[k].Mounted?
    ensures Run(v, es).stats.episodes >= v.stats.episodes
    decreases |es|
  {
    if es != [] {
      EpisodesNeverDecrease(v, es[..|es| - 1]);
    }
  }

  function Replies(rs: seq<StepReply>): (es: seq<Event>)
    ensures |es| == |rs| && forall k :: 0 <= k < |rs| ==> es[k] == StepPressed(rs[k])
  {
    seq(|rs|, k requires 0 <= k < |rs| => StepPressed(rs[k]))
  }

  function SumRewards(rs: seq<StepReply>): real
    decreases |rs|
  {
    if rs == [] then 0.0 else SumRewards(rs[..|rs| - 1]) + rs[|rs| - 1].reward
  }

  function CountDone(rs: seq<StepReply>): nat
    decreases |rs|
  {
    if rs == [] then 0 else CountDone(rs[..|rs| - 1]) + (if rs[|rs| - 1].done then 1 else 0)
  }

  predicate AnyDone(rs: seq<StepReply>) {
    exists k :: 0 <= k < |rs| && rs[k].done
  }

  /**
   * A run of manual steps counts one step per reply, sums the rewards,
   * counts one episode per finished reply, and ends with the last action.
   */
  lemma {:induction false} ManualSteps(v: View, rs: seq<StepReply>)
    ensures var w := Run(v, Replies(rs));
      w.stats.steps == v.stats.steps + |rs|
      && w.stats.totalReward == v.stats.totalReward + SumRewards(rs)
      && w.stats.episodes == v.stats.episodes + CountDone(rs)
      && w.episodeDone == (v.episodeDone || AnyDone(rs))
      && w.auto == (v.auto && !AnyDone(rs))
      && (rs != [] ==> w.lastAction == rs[|rs| - 1].action)
    decreases |rs|
  {
    if rs != [] {
      var init := rs[..|rs| - 1];
      var r := rs[|rs| - 1];
      assert Replies(rs)[..|rs| - 1] == Replies(init);
      ManualSteps(v, init);
      var u := Run(v, Replies(init));
      assert Run(v, Replies(rs)) == Step(u, r);
      StepEffect(u, r);
      AnyDoneSnoc(rs);
    }
  }

  lemma AnyDoneSnoc(rs: seq<StepReply>)
    requires rs != []
    ensures AnyDone(rs) <==> AnyDone(rs[..|rs| - 1]) || rs[|rs| - 1].done
  {
    var init := rs[..|rs| - 1];
    if AnyDone(init) {
      var k :| 0 <= k < |init| && init[k].done;
      assert rs[k] == init[k];
    }
    if AnyDone(rs) && !rs[|rs| - 1].done {
      var k :| 0 <= k < |rs| && rs[k].done;
      assert init[k] == rs[k];
    }
  }

  /** The controller itself: its state cells are fields, its handlers methods. */
  class RLView {
    var stats: Stats
    var lastAction: int
    var episodeDone: bool
    var auto: bool
    var grid: Option<Grid>

    function Current(): (v: View)
      reads this
    {
      View(stats, lastAction, episodeDone, auto, grid)
    }

    constructor ()
      ensures Current() == Initial
    {
      stats := Stats(0, 0.0, 0);
      lastAction := -1;
      episodeDone := false;
      auto := false;
      grid := None;
    }

    method ResetStatsForNewEpisode(keepEpisodes: bool)
      modifies this
      ensures Current() == ResetStats(old(Current()), keepEpisodes)
      ensures stats == Stats(0, 0.0, if keepEpisodes then old(stats.episodes) else 0)
      ensures !episodeDone && lastAction == -1 && auto == old(auto) && grid == old(grid)
    {
      stats := Stats(0, 0.0, if keepEpisodes then stats.episodes else 0);
      episodeDone := false;
      lastAction := -1;
    }

    /** The effect of mounting, once the random environment has arrived. */
    method Mount(g: Grid)
      modifies this
      ensures Current() == InitialLoad(old(Current()), g)
    {
      grid := Some(g);
      ResetStatsForNewEpisode(false);
    }

    /** Either reset button, once the new environment has arrived. */
    method HandleReset(g: Grid)
      modifies this
      ensures Current() == Reset(old(Current()), g)
    {
      grid := Some(g);
      ResetStatsForNewEpisode(true);
      auto := false;
    }

    /** The state updates shared by the Step button and an auto-run tick. */
    method ApplyReply(r: StepReply)
      modifies this
      ensures Current() == Step(old(Current()), r)
    {
      grid := Some(r.grid);
      lastAction := r.action;
      stats := stats.(steps := stats.steps + 1, totalReward := stats.totalReward + r.reward);
      if r.done {
        episodeDone := true;
        auto := false;
        stats := stats.(episodes := stats.episodes + 1);
      }
    }

    method HandleStep(r: StepReply)
      modifies this
      ensures Current() == Step(old(Current()), r)
    {
      ApplyReply(r);
    }

    /**
     * One firing of the auto-run timer, which only runs while auto-run is
     * on. `stepped` says whether it called the step endpoint, whose reply
     * is `r`.
     */
    method AutoTick(r: StepReply) returns (stepped: bool)
      requires auto
      modifies this
      ensures stepped == TickSteps(old(Current()))
      ensures Current() == Tick(old(Current()), r)
    {
      if episodeDone {
        auto := false;
        return false;
      }
      ApplyReply(r);
      stepped := true;
    }

    method HandleStartAuto()
      modifies this
      ensures Current() == StartAuto(old(Current()))
    {
      if grid.None? {
        return;
      }
      episodeDone := false;
      auto := true;
    }

    method HandleStopAuto()
      modifies this
      ensures Current() == StopAuto(old(Current()))
    {
      auto := false;
    }
  }
}
