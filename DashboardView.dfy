/** The dashboard's view model: the last snapshot, the rows pushed to the table
    widget, the per-row background colours and the selected row, updated in
    place by the refresh tick and by the key handlers. */
module DashboardView {
  import opened Rows
  import opened Selection

  /** Background colours the dashboard writes into the table's colour slots. */
  datatype Color = Default | Red | Black

  class Dashboard {
    /** Selected table row, 1-based; 0 selects nothing. */
    var row: int
    var lenContainers: int
    var containers: seq<Container>
    /** The table widget's rows: a header, then one row per container. */
    var rows: seq<seq<string>>
    /** The table widget's background colour per row. */
    var bg: array<Color>

    /** The state the dashboard is created in: row 1 of an empty list, a
        table holding only the header and no colour slots yet. */
    ghost predicate BeforeFirstRefresh()
      reads this
    {
      row == 1 && lenContainers == 0 && containers == [] && rows == [Header] && bg.Length == 0
    }

    /** The invariant from the first refresh on: the count matches the list, the
        selection lies within it, the table shows the list, there is one colour
        slot per table row, and the selected row is the only one painted red. */
    ghost predicate Valid()
      reads this, bg
    {
      lenContainers == |containers| && 0 <= row <= lenContainers
      && WellFormed(containers) && rows == Table(containers)
      && bg.Length == lenContainers + 1
      && forall i :: 0 <= i < bg.Length ==> (bg[i] == Red <==> 0 < i == row)
    }

    ghost function State(): Sel
      reads this
    {
      Sel(row, lenContainers)
    }

    constructor ()
      ensures BeforeFirstRefresh() && fresh(bg)
      ensures State() == Selection.Initial
    {
      row := 1;
      lenContainers := 0;
      containers := [];
      rows := [Header];
      bg := new Color[0];
    }

    /** Installs a freshly fetched snapshot: replaces the list, its count and the
        table rows together, resets the colour slots, clamps the selection and
        paints the selected row. */
    method Refresh(fetched: seq<Container>)
      requires Valid() || BeforeFirstRefresh()
      requires WellFormed(fetched)
      modifies this
      ensures Valid() && fresh(bg)
      ensures containers == fetched && lenContainers == |fetched| && rows == Table(fetched)
      ensures State() == Step(old(State()), TimerTick(|fetched|))
      ensures row <= old(row) && (old(row) <= |fetched| ==> row == old(row))
      ensures forall i :: 0 <= i < bg.Length ==> bg[i] == (if 0 < i == row then Red else Default)
    {
      lenContainers := |fetched|;
      containers := fetched;
      rows := BuildRows(fetched);
      if row > lenContainers {
        row := lenContainers;
      }
      bg := Painted(|rows|, row);
    }

    /** One timer tick: refresh, then choose the container whose statistics the
        detail pane shows, under the guard the code uses. */
    method Tick(fetched: seq<Container>) returns (detail: Target)
      requires Valid() || BeforeFirstRefresh()
      requires WellFormed(fetched)
      modifies this
      ensures Valid() && fresh(bg)
      ensures containers == fetched && lenContainers == |fetched| && rows == Table(fetched)
      ensures State() == Step(old(State()), TimerTick(|fetched|))
      ensures detail == DetailTarget(row, lenContainers, containers)
      ensures detail.OutOfRange? <==> row == 0 && lenContainers > 0
      ensures forall i :: 0 <= i < bg.Length ==> bg[i] == (if 0 < i == row then Red else Default)
    {
      Refresh(fetched);
      if DetailGuard(row, lenContainers) {
        detail := Index(containers, row - 1);
      } else {
        detail := NoTarget;
      }
    }

    /** The up-arrow handler: moves the highlight one row up unless on row 1 or none. */
    method Up()
      requires Valid() || BeforeFirstRefresh()
      modifies this, bg
      ensures State() == Step(old(State()), KeyUp)
      ensures containers == old(containers) && rows == old(rows) && bg == old(bg)
      ensures old(row) > 1 ==> bg[..] == old(bg[..])[row := Red][row + 1 := Black]
      ensures old(row) <= 1 ==> bg[..] == old(bg[..])
      ensures old(Valid()) ==> Valid()
      ensures old(BeforeFirstRefresh()) ==> BeforeFirstRefresh()
    {
      if row > 1 {
        row := row - 1;
        bg[row] := Red;
        bg[row + 1] := Black;
      }
    }

    /** The down-arrow handler: moves the highlight one row down unless on the last row. */
    method Down()
      requires Valid() || BeforeFirstRefresh()
      modifies this, bg
      ensures State() == Step(old(State()), KeyDown)
      ensures containers == old(containers) && rows == old(rows) && bg == old(bg)
      ensures old(row) < lenContainers ==> bg[..] == old(bg[..])[row := Red][row - 1 := Black]
      ensures old(row) >= lenContainers ==> bg[..] == old(bg[..])
      ensures old(Valid()) ==> Valid()
      ensures old(BeforeFirstRefresh()) ==> BeforeFirstRefresh()
    {
      if row < lenContainers {
        row := row + 1;
        bg[row] := Red;
        bg[row - 1] := Black;
      }
    }

    /** The force-remove key: removes the selected container, if a row is selected. */
    method DeleteKey() returns (cmd: Command)
      requires Valid() || BeforeFirstRefresh()
      ensures cmd == RemoveCommand(KeyTarget(row, containers))
      ensures Valid() ==> (cmd == Idle <==> row == 0)
      ensures Valid() && row > 0 ==> cmd == ForceRemove(containers[row - 1])
      ensures BeforeFirstRefresh() ==> cmd == IndexPanic(0)
    {
      if row > 0 {
        match Index(containers, row - 1)
        case Selected(container) => cmd := ForceRemove(container);
        case _ => cmd := IndexPanic(row - 1);
      } else {
        cmd := Idle;
      }
    }

    /** The start/stop key: starts the selected container unless it is running,
        in which case it stops it. */
    method ToggleKey() returns (cmd: Command)
      requires Valid() || BeforeFirstRefresh()
      ensures cmd == ToggleCommand(KeyTarget(row, containers))
      ensures Valid() ==> (cmd == Idle <==> row == 0)
      ensures Valid() && row > 0 && containers[row - 1].State != "running" ==> cmd == Start(containers[row - 1])
      ensures Valid() && row > 0 && containers[row - 1].State == "running" ==> cmd == Stop(containers[row - 1])
      ensures BeforeFirstRefresh() ==> cmd == IndexPanic(0)
    {
      if row > 0 {
        match Index(containers, row - 1)
        case Selected(container) =>
          if container.State != "running" {
            cmd := Start(container);
          } else {
            cmd := Stop(container);
          }
        case _ => cmd := IndexPanic(row - 1);
      } else {
        cmd := Idle;
      }
    }
  }

  /** The colour slots a refresh leaves: one per table row, all in the default
      colour except the selected row, which is red. */
  method Painted(n: nat, row: int) returns (colors: array<Color>)
    requires row < n
    ensures fresh(colors) && colors.Length == n
    ensures forall i :: 0 <= i < n ==> colors[i] == (if 0 < i == row then Red else Default)
  {
    colors := new Color[n](_ => Default);
    if row > 0 {
      colors[row] := Red;
    }
  }

  /** Three containers with the third selected; a refresh returns the first two.
      The selection falls to the second, the keys act on it, yet the detail pane
      is blanked because the last row is selected. */
  method ShrinkScenario(a: Container, b: Container, c: Container) returns (row: int, detail: Target, cmd: Command)
    requires WellFormed([a, b, c])
    ensures row == 2
    ensures detail == NoTarget
    ensures cmd == ForceRemove(b)
  {
    var d := new Dashboard();
    d.Refresh([a, b, c]);
    d.Down();
    d.Down();
    assert d.row == 3;
    assert WellFormed([a, b]) by {
      assert [a, b][0] == [a, b, c][0] && [a, b][1] == [a, b, c][1];
    }
    detail := d.Tick([a, b]);
    row := d.row;
    cmd := d.DeleteKey();
  }

  /** A refresh that finds no containers clamps the row to 0; when one
      container then appears the detail guard admits row 0 and reads index -1. */
  method DetailIndexScenario(c: Container) returns (detail: Target)
    requires |c.ID| >= 10
    ensures detail == OutOfRange(-1)
  {
    var d := new Dashboard();
    var first := d.Tick([]);
    detail := d.Tick([c]);
  }

  /** A remove or start/stop key pressed before the first refresh reads
      index 0 of the still empty list. */
  method EarlyKeyScenario() returns (remove: Command, toggle: Command)
    ensures remove == IndexPanic(0) && toggle == IndexPanic(0)
  {
    var d := new Dashboard();
    remove := d.DeleteKey();
    toggle := d.ToggleKey();
  }
}
