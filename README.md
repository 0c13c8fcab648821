# docker-dashboard view model in Dafny

This project models the view model of a terminal dashboard for Docker containers
(`dashboard.go`). The dashboard keeps the last container list fetched from the Docker
daemon. It renders that list as a table: a header row, then one row per container.
It tracks the selected table row and the background colour of each row. On every
one-second timer tick it refreshes all of this. The arrow keys move the selection.
`C-d` force-removes the selected container. `C-s` starts or stops it.

The model has three modules:

- `Rows` (`Rows.dfy`) holds the container snapshot and the table rows built from it.
  - The ports column is every port as `public-->private`, joined by `", "`.
  - The names column is modelled as the code writes it, not as a plain comma-join.
    Every name is followed by `", "`, and every name after the first is also preceded
    by `", "`. So `["a", "b"]` renders as `"a, , b, "`.
  - The identifier column is the first ten characters of the container ID.
  - The buffer loops (`RenderPorts`, `RenderNames`, `BuildRows`) are proved to build
    exactly the specification functions `PortsCell`, `NamesCell` and `Table`.
- `Selection` (`Selection.dfy`) is the selection state machine on values.
  - A refresh tick clamps the row to the new count. The arrow keys move it within
    bounds.
  - `Run` applies a whole sequence of ticks and key presses.
  - Go's bounds-checked slice indexing is made explicit as `Index`. It returns either
    the container or `OutOfRange(i)`, which stands for the run-time panic.
  - The module also holds the guards of the detail pane and of the action keys, and
    the Docker calls the action keys issue (`Command`).
- `DashboardView` (`DashboardView.dfy`) is the `Dashboard` class. Its fields are
  `row`, `lenContainers`, `containers`, `rows` (the table widget's rows) and `bg`
  (the table widget's background colour array).
  - `Refresh` is `refreshContainers`. `Tick` is the timer handler. `Up`, `Down`,
    `DeleteKey` and `ToggleKey` are the key handlers.
  - `Valid()` states the invariant `0 <= row <= lenContainers == |containers|`. It
    also says there is one colour slot per table row and the selected row is the
    only red one.
  - The dashboard starts as row 1 of an empty list (`BeforeFirstRefresh()`), which
    breaks that invariant. Every handler accepts either state. The first refresh
    establishes `Valid()`, and every handler keeps it.

Docker calls are not executed. The fetched list is a parameter of `Refresh`/`Tick`.
The statistics fetch is represented by the `Target` the tick chooses for the detail
pane. Remove, start and stop are represented by the `Command` a key handler returns.

Two behaviours of the code worth noting:

- With no selection and some containers, the down arrow selects row 1. It is not a
  no-op (`Selection.DownFromNoSelection`).
- When a refresh shrinks the list under the selected last row, the selection falls to
  the new last row. The detail pane is then blanked rather than showing that
  container (`DashboardView.ShrinkScenario`).

## Model

| member | source | states |
|---|---|---|
| `Rows.Decimal` | dashboard.go:37-39 | a port number is written as at least one decimal digit, all digits, with no leading zero |
| `Rows.DecimalRoundTrip` | dashboard.go:37-39 | reading the written numeral back gives the port number |
| `Rows.JoinEdges` | dashboard.go:32-40 | a separator-join of non-empty parts starts with the first part's first character and ends with the last part's last character |
| `Rows.RenderPorts` | dashboard.go:30-41 | the buffer loop produces every port as public-->private, separated by ", " (PortsCell) |
| `Rows.PortsCellEmpty` | dashboard.go:30-41 | the ports column is empty exactly when the container has no ports |
| `Rows.PortsCellEdges` | dashboard.go:32-40 | a non-empty ports column starts and ends with a digit, so there is no leading or trailing separator |
| `Rows.RenderNames` | dashboard.go:42-51 | the buffer loop produces each name followed by ", ", with ", " also written before every name after the first (NamesCell) |
| `Rows.NamesCellShape` | dashboard.go:42-51 | for names n0..nk the column is n0 + ", " followed by ", " + ni + ", " for each i >= 1 |
| `Rows.NamesCellLength` | dashboard.go:42-51 | the column is two characters per name longer than the plain ", "-join, so it never equals that join for a non-empty list |
| `Rows.NamesCellExample` | dashboard.go:42-51 | ["a","b"] renders as "a, , b, " where the plain join is "a, b"; no names render as "" |
| `Rows.Table` | dashboard.go:22-52 | the table is the header followed by exactly one row per container in fetch order, row i+1 being container i's row |
| `Rows.TableColumns` | dashboard.go:52 | each container row has five columns: the 10-character ID prefix, the image, the ports (empty iff no ports), the status, and the names |
| `Rows.BuildRows` | dashboard.go:22-53 | the row-building loop produces exactly the table of the fetched list |
| `Selection.ClampRow` | dashboard.go:60-62 | the clamped row is the smaller of the row and the count: never above either, and equal to one of them |
| `Selection.TickClamps` | dashboard.go:60-62 | a refresh keeps a row that still exists and moves a row past the end to the new last row (third of three, then two fetched: second) |
| `Selection.RunKeepsBounds` | dashboard.go:60-137 | from a state with 0 <= row <= count, any sequence of ticks and key presses keeps that bound |
| `Selection.KeysKeepInitial` | dashboard.go:185-189 | before the first tick no key changes the initial state (row 1, count 0); this is about the state only, since remove and start/stop pressed there read index 0 of the empty list (`DashboardView.EarlyKeyScenario`) |
| `Selection.BoundsAfterFirstTick` | dashboard.go:185-189 | from the initial state, once a tick has happened, 0 <= row <= count holds |
| `Selection.KeysKeepSelection` | dashboard.go:120-155 | once a row is selected, key presses never deselect it: row 0 is never a navigation target |
| `Selection.MovesStopAtEdges` | dashboard.go:120-137 | up is a no-op on row 1 or with no selection, down is a no-op on the last row, otherwise each moves by one |
| `Selection.DownFromNoSelection` | dashboard.go:130-134 | with no selection and some containers, down selects row 1 |
| `Selection.SelectedTarget` | dashboard.go:100-102 | under the guard 1 <= row <= count, the detail pane never reads outside the list |
| `Selection.SelectedTargetSound` | dashboard.go:100-102 | the corrected guard reaches container row-1 exactly when 1 <= row <= count, and nothing otherwise |
| `Selection.KeyTargetInBounds` | dashboard.go:140-148 | within bounds, the keys' guard row > 0 reaches exactly the selected container |
| `Selection.KeyTargetBeforeFirstTick` | dashboard.go:185-189 | in the initial state the keys' guard admits row 1 and reads index 0 of the empty list |
| `Selection.DetailGuardGap` | dashboard.go:100-113 | within bounds the detail guard reads index -1 exactly when no row is selected and the list is non-empty, blanks the pane when the last row is selected, and agrees with the selection only when the list is empty or row is 1..count-1 |
| `Selection.DetailGapReachable` | dashboard.go:100-102 | a refresh with no containers followed by one with a single container reaches row 0 of 1, where the guard reads index -1 |
| `DashboardView.Dashboard.constructor` | dashboard.go:185-189 | the dashboard starts on row 1 of an empty list, with only the header row and no colour slots |
| `DashboardView.Dashboard.Refresh` | dashboard.go:21-66 | list, count and rows are replaced together by the fetched list and its table; the row is clamped and never increases; the colour slots are fresh, one per row, red only on the selected row; the invariant holds afterwards |
| `DashboardView.Painted` | dashboard.go:55-65 | the reset colour slots are one per table row, in the default colour except the selected row, which is red |
| `DashboardView.Dashboard.Tick` | dashboard.go:95-116 | after the refresh (all colour slots reset to the default, only the selected row red), the detail pane targets what the code's guard reads, which is an index panic exactly when row is 0 and the list is non-empty |
| `DashboardView.Dashboard.Up` | dashboard.go:120-128 | above row 1, the row decrements and becomes red while the row below it becomes black; otherwise nothing changes; the list is untouched and the invariant is kept |
| `DashboardView.Dashboard.Down` | dashboard.go:130-138 | below the last row, the row increments and becomes red while the row above it becomes black; otherwise nothing changes; the list is untouched and the invariant is kept |
| `DashboardView.Dashboard.DeleteKey` | dashboard.go:140-144 | with no selection nothing happens; otherwise the selected container containers[row-1] is force-removed; before the first tick it reads index 0 of the empty list |
| `DashboardView.Dashboard.ToggleKey` | dashboard.go:146-155 | with no selection nothing happens; otherwise the selected container is started when its state is not "running" and stopped when it is; before the first tick it reads index 0 of the empty list |
| `DashboardView.ShrinkScenario` | dashboard.go:95-116 | with three containers and the third selected, a tick fetching two selects the second and the remove key targets it, while the detail pane is blank |
| `DashboardView.DetailIndexScenario` | dashboard.go:100-102 | a tick with no containers followed by a tick with one makes the detail pane read index -1 |
| `DashboardView.EarlyKeyScenario` | dashboard.go:140-155 | remove and start/stop pressed before the first tick both read index 0 of the empty list |

## Left out

- The timer runs each refresh in its own goroutine, which races with the key handlers on `row` and the colour slots. Events are modelled as a sequential sequence of calls.
- The Docker client calls `GetContainers`, `ContainerStats`, `ContainerRemove`, `ContainerStart` and `ContainerStop` are not modelled. The client code is not part of this model, so neither is what it does on a failed fetch. The fetched list is a parameter. The statistics fetch and the runtime actions are returned as a `Target` or `Command`.
- termui is not modelled: `ui.Init`, `ui.Loop`, `ui.Render`, `ui.Clear`, the body layout, and the widget construction in `drawContainers`, `drawDoc`, `drawDetail` and `InitDashboard`. `Table.Analysis()` is modelled only as the fresh array of default-coloured slots, one per row. The reset of the foreground colours is not modelled.
- The formatted detail text (name, CPU, memory, process count) is left out. It formats external statistics. Only the guard that decides whether it is shown, and which container it reads, is modelled.
- The quit key only stops the event loop. It has no state to model.
- `Rows.BuildRows`: requires every container identifier to have at least ten characters. The code slices `ID[0:10]` and would panic on a shorter one. Docker identifiers are 64 hexadecimal characters. `DashboardView.Dashboard.Refresh` and `DashboardView.Dashboard.Tick` carry the same precondition.
- Strings are modelled as sequences of characters, not bytes. The identifier prefix `ID[0:10]` is taken in characters; Go slices it in bytes. The two agree for the hexadecimal identifiers Docker issues.
- `row` and `lenContainers` are Go `int`s and are unbounded here. They never go beyond the list length, so no overflow is reachable.
- `Gododir/main.go` holds build and watch tasks with no logic to model.

## Findings

| source | as written | input that shows it | evidently intended | confidence | as-written member | corrected member |
|---|---|---|---|---|---|---|
| dashboard.go:100-102 | the detail guard is `row >= 0 && row < lenContainers`, then it reads `containers[row-1]` | a tick that fetches no containers (row clamped to 0), then a tick that fetches one: the guard admits row 0 and reads index -1; also, with the last row selected the guard fails and the pane is blank | show the detail exactly when `1 <= row <= lenContainers` | not executed; high | `Selection.DetailGuardGap` | `Selection.SelectedTarget` |
| dashboard.go:140-155 | `C-d` and `C-s` read `containers[row-1]` whenever `row > 0`, and the dashboard starts on row 1 of an empty list (dashboard.go:185-189) | press `C-d` or `C-s` before the first one-second tick: index 0 of the empty list | act only when `1 <= row <= lenContainers` | not executed; medium | `DashboardView.EarlyKeyScenario` | `Selection.SelectedTarget` |
