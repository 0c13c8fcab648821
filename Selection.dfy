/** The selection state machine of the dashboard, on values.
    The selected row is a 1-based index into the table (row 0 is the header,
    so row 0 also means "nothing selected"); the container count bounds it.
    Refresh ticks, the arrow keys and the action keys are events; a run of
    the dashboard is a sequence of them applied one after another. */
module Selection {
  import opened Rows

  datatype Sel = Sel(row: int, count: int)

  /** The state the dashboard starts in, before its first refresh. */
  const Initial: Sel := Sel(1, 0)

  /** The selection invariant: no row past the last container, none before the header. */
  predicate InBounds(s: Sel) {
    0 <= s.row <= s.count
  }

  /** The clamp a refresh applies: a row past the new end falls down to the last row. */
  function ClampRow(row: int, n: int): (r: int)
    ensures r <= row && r <= n
    ensures r == row || r == n
  {
    if row > n then n else row
  }

  function UpRow(row: int): int {
    if row > 1 then row - 1 else row
  }

  function DownRow(row: int, n: int): int {
    if row < n then row + 1 else row
  }

  /** A refresh tick that fetched `count` containers, or a key press. */
  datatype Event = TimerTick(count: nat) | KeyUp | KeyDown | KeyRemove | KeyToggle

  function Step(s: Sel, e: Event): Sel {
    match e
    case TimerTick(n) => Sel(ClampRow(s.row, n), n)
    case KeyUp => Sel(UpRow(s.row), s.count)
    case KeyDown => Sel(DownRow(s.row, s.count), s.count)
    case KeyRemove => s
    case KeyToggle => s
  }

  function Run(s: Sel, es: seq<Event>): Sel
    decreases |es|
  {
    if |es| == 0 then s else Run(Step(s, es[0]), es[1..])
  }

  /** Every event keeps the selection within bounds, whatever the counts fetched. */
  lemma {:induction false} RunKeepsBounds(s: Sel, es: seq<Event>)
    requires InBounds(s)
    ensures InBounds(Run(s, es))
    decreases |es|
  {
    if |es| > 0 {
      RunKeepsBounds(Step(s, es[0]), es[1..]);
    }
  }

  /** Before the first refresh no key moves the selection: the initial state,
      which is out of bounds (row 1 of no containers), persists until a tick.
      This is about the state only: the remove and start/stop keys pressed in
      it read index 0 of the empty list (see KeyTargetBeforeFirstTick and
      DashboardView.EarlyKeyScenario). */
  lemma {:induction false} KeysKeepInitial(es: seq<Event>)
    requires forall k :: 0 <= k < |es| ==> !es[k].TimerTick?
    ensures Run(Initial, es) == Initial
    decreases |es|
  {
    if |es| > 0 {
      assert Step(Initial, es[0]) == Initial;
      KeysKeepInitial(es[1..]);
    }
  }

  /** From the first refresh on, the selection is within bounds. */
  lemma {:induction false} BoundsAfterFirstTick(es: seq<Event>)
    requires exists k :: 0 <= k < |es| && es[k].TimerTick?
    ensures InBounds(Run(Initial, es))
    decreases |es|
  {
    if es[0].TimerTick? {
      RunKeepsBounds(Step(Initial, es[0]), es[1..]);
    } else {
      assert Step(Initial, es[0]) == Initial;
      var k :| 0 <= k < |es| && es[k].TimerTick?;
      assert es[1..][k - 1].TimerTick?;
      BoundsAfterFirstTick(es[1..]);
    }
  }

  /** Once a row is selected, the arrow and action keys never deselect it:
      row 0 is not a target of navigation. */
  lemma {:induction false} KeysKeepSelection(s: Sel, es: seq<Event>)
    requires InBounds(s) && s.row >= 1
    requires forall k :: 0 <= k < |es| ==> !es[k].TimerTick?
    ensures InBounds(Run(s, es)) && Run(s, es).row >= 1
    ensures Run(s, es).count == s.count
    decreases |es|
  {
    if |es| > 0 {
      KeysKeepSelection(Step(s, es[0]), es[1..]);
    }
  }

  /** Moving up from row 1 or from no selection changes nothing; moving down
      from the last row changes nothing. */
  lemma MovesStopAtEdges(s: Sel)
    requires InBounds(s)
    ensures s.row <= 1 ==> Step(s, KeyUp) == s
    ensures s.row == s.count ==> Step(s, KeyDown) == s
    ensures s.row > 1 ==> Step(s, KeyUp).row == s.row - 1
    ensures s.row < s.count ==> Step(s, KeyDown).row == s.row + 1
  {
  }

  /** With no selection and some containers, moving down selects the first row. */
  lemma DownFromNoSelection(s: Sel)
    requires s.row == 0 && s.count > 0
    ensures Step(s, KeyDown).row == 1
  {
  }

  /** A refresh leaves a row that still exists alone, and moves a row past
      the new end to the new last row (three containers with the third
      selected, then two fetched: the second is selected). */
  lemma TickClamps(s: Sel, n: nat)
    requires InBounds(s)
    ensures s.row <= n ==> Step(s, TimerTick(n)) == Sel(s.row, n)
    ensures s.row > n ==> Step(s, TimerTick(n)) == Sel(n, n)
    ensures Step(Sel(3, 3), TimerTick(2)) == Sel(2, 2)
  {
  }

  // ---------------------------------------------------------------------------
  // Which container a handler reaches

  /** What reading the container list at an index gives: the container, or a
      run-time index error when the index is outside the list. */
  datatype Target = NoTarget | Selected(c: Container) | OutOfRange(index: int)

  function Index(cs: seq<Container>, i: int): Target {
    if 0 <= i < |cs| then Selected(cs[i]) else OutOfRange(i)
  }

  /** The guard of the remove and start/stop keys: any positive row, then row - 1 is read. */
  function KeyTarget(row: int, cs: seq<Container>): Target {
    if row > 0 then Index(cs, row - 1) else NoTarget
  }

  /** The guard of the detail pane on a refresh tick, as the code has it. */
  predicate DetailGuard(row: int, n: int) {
    row >= 0 && row < n
  }

  function DetailTarget(row: int, n: int, cs: seq<Container>): Target {
    if DetailGuard(row, n) then Index(cs, row - 1) else NoTarget
  }

  /** A container is selected exactly when the row lies on a container row. */
  predicate HasSelection(row: int, n: int) {
    1 <= row <= n
  }

  /** The container a guard of 1 <= row <= |cs| reaches: the selected one, if any. */
  function SelectedTarget(row: int, cs: seq<Container>): (t: Target)
    ensures !t.OutOfRange?
  {
    if HasSelection(row, |cs|) then Selected(cs[row - 1]) else NoTarget
  }

  /** The corrected guard reaches the selected container exactly when there is
      one, never reads outside the list, and yields nothing otherwise. */
  lemma SelectedTargetSound(row: int, cs: seq<Container>)
    ensures SelectedTarget(row, cs).Selected? <==> 1 <= row <= |cs|
    ensures 1 <= row <= |cs| ==> SelectedTarget(row, cs) == Selected(cs[row - 1])
    ensures !(1 <= row <= |cs|) ==> SelectedTarget(row, cs) == NoTarget
  {
  }

  /** Within bounds, the keys' guard `row > 0` reaches exactly the selected container. */
  lemma KeyTargetInBounds(row: int, cs: seq<Container>)
    requires 0 <= row <= |cs|
    ensures KeyTarget(row, cs) == SelectedTarget(row, cs)
  {
  }

  /** In the initial state, before any refresh, the keys' guard lets row 1
      through and the handler reads index 0 of the empty list. */
  lemma KeyTargetBeforeFirstTick()
    ensures KeyTarget(Initial.row, []) == OutOfRange(0)
    ensures SelectedTarget(Initial.row, []) == NoTarget
  {
  }

  /** Within bounds, the detail guard agrees with the selection exactly when the
      list is empty or the selection is on a row other than the last: with no
      selection and some containers it reads index -1, and with the last row
      selected it shows no detail. */
  lemma DetailGuardGap(row: int, cs: seq<Container>)
    requires 0 <= row <= |cs|
    ensures DetailTarget(row, |cs|, cs).OutOfRange? <==> row == 0 && |cs| > 0
    ensures row == 0 && |cs| > 0 ==> DetailTarget(row, |cs|, cs) == OutOfRange(-1)
    ensures row == |cs| > 0 ==> DetailTarget(row, |cs|, cs) == NoTarget
    ensures DetailTarget(row, |cs|, cs) == SelectedTarget(row, cs) <==> |cs| == 0 || 1 <= row < |cs|
  {
  }

  /** The state with no selection and one container is reachable: a refresh
      that finds no containers clamps the row to 0, and the next refresh that
      finds one leaves it there. */
  lemma DetailGapReachable(c: Container)
    ensures Run(Initial, [TimerTick(0), TimerTick(1)]) == Sel(0, 1)
    ensures DetailTarget(0, 1, [c]) == OutOfRange(-1)
  {
    assert [TimerTick(0), TimerTick(1)][1..] == [TimerTick(1)];
  }

  // ---------------------------------------------------------------------------
  // What the action keys ask of the runtime

  /** A runtime call the dashboard issues, or the run-time index error it hits first. */
  datatype Command = Idle | ForceRemove(c: Container) | Start(c: Container) | Stop(c: Container) | IndexPanic(index: int)

  function RemoveCommand(t: Target): Command {
    match t
    case NoTarget => Idle
    case Selected(c) => ForceRemove(c)
    case OutOfRange(i) => IndexPanic(i)
  }

  /** Start a container that is not running, stop one that is. */
  function ToggleCommand(t: Target): Command {
    match t
    case NoTarget => Idle
    case Selected(c) => if c.State != "running" then Start(c) else Stop(c)
    case OutOfRange(i) => IndexPanic(i)
  }
}
