/** The container snapshot and the table rows the dashboard renders from it.
    A snapshot is the list the runtime client returned; the table is a header
    row followed by one row per container, in the order of the snapshot. */
module Rows {

  /** Port numbers are 16-bit unsigned integers in the runtime's API. */
  newtype uint16 = x: int | 0 <= x < 0x1_0000

  datatype Port = Port(PublicPort: uint16, PrivatePort: uint16)

  /** One entry of the list the runtime returns; only the fields the dashboard reads. */
  datatype Container = Container(
    ID: string,
    Image: string,
    Ports: seq<Port>,
    Status: string,
    Names: seq<string>,
    State: string)

  const Header: seq<string> := ["ID", "Image", "Ports", "Status", "Name"]

  /** Separator written between ports and between names. */
  const Sep: string := ", "

  // ---------------------------------------------------------------------------
  // Decimal rendering of a port number (the `%v` verb on an unsigned integer)

  predicate IsDigit(c: char) {
    '0' <= c <= '9'
  }

  function DigitChar(d: nat): (c: char)
    requires d < 10
    ensures IsDigit(c) && c as int - '0' as int == d
  {
    ('0' as int + d) as char
  }

  /** Shortest decimal numeral of n: at least one digit, no leading zero. */
  function Decimal(n: nat): (s: string)
    ensures 1 <= |s|
    ensures forall i :: 0 <= i < |s| ==> IsDigit(s[i])
    ensures |s| > 1 ==> s[0] != '0'
    decreases n
  {
    if n < 10 then [DigitChar(n)] else Decimal(n / 10) + [DigitChar(n % 10)]
  }

  /** Value of a numeral read most-significant digit first. */
  function ParseDecimal(s: string): int
  {
    if |s| == 0 then 0 else ParseDecimal(s[..|s| - 1]) * 10 + (s[|s| - 1] as int - '0' as int)
  }

  /** The numeral written for a port reads back as that port. */
  lemma {:induction false} DecimalRoundTrip(n: nat)
    ensures ParseDecimal(Decimal(n)) == n
  {
    if n >= 10 {
      DecimalRoundTrip(n / 10);
      var s := Decimal(n);
      assert s[..|s| - 1] == Decimal(n / 10);
    }
  }

  // ---------------------------------------------------------------------------
  // Joining strings with a separator

  /** parts[0] + sep + parts[1] + ... + sep + parts[k]; empty for no parts. */
  function Join(parts: seq<string>, sep: string): string
    decreases |parts|
  {
    if |parts| == 0 then ""
    else if |parts| == 1 then parts[0]
    else Join(parts[..|parts| - 1], sep) + sep + parts[|parts| - 1]
  }

  /** A join of non-empty parts starts with the first part's first character
      and ends with the last part's last character: no leading or trailing separator. */
  lemma {:induction false} JoinEdges(parts: seq<string>, sep: string)
    requires |parts| > 0
    requires forall i :: 0 <= i < |parts| ==> |parts[i]| > 0
    ensures |Join(parts, sep)| > 0
    ensures Join(parts, sep)[0] == parts[0][0]
    ensures Join(parts, sep)[|Join(parts, sep)| - 1] == parts[|parts| - 1][|parts[|parts| - 1]| - 1]
  {
    if |parts| > 1 {
      var init := parts[..|parts| - 1];
      JoinEdges(init, sep);
      assert init[0] == parts[0];
    }
  }

  // ---------------------------------------------------------------------------
  // The ports column

  function PortLabel(p: Port): string {
    Decimal(p.PublicPort as int) + "-->" + Decimal(p.PrivatePort as int)
  }

  function PortLabels(ports: seq<Port>): (labels: seq<string>)
    ensures |labels| == |ports|
    ensures forall i :: 0 <= i < |ports| ==> labels[i] == PortLabel(ports[i])
  {
    seq(|ports|, i requires 0 <= i < |ports| => PortLabel(ports[i]))
  }

  /** The ports column: every port as public-->private, separated by ", ". */
  function PortsCell(ports: seq<Port>): string {
    Join(PortLabels(ports), Sep)
  }

  /** Builds the ports column in a buffer, one port at a time. */
  method RenderPorts(ports: seq<Port>) returns (s: string)
    ensures s == PortsCell(ports)
  {
    s := "";
    if |ports| > 0 {
      var i := 0;
      while i < |ports|
        invariant 0 <= i <= |ports|
        invariant s == Join(PortLabels(ports)[..i], Sep)
      {
        if i > 0 {
          s := s + Sep;
        }
        s := s + Decimal(ports[i].PublicPort as int);
        s := s + "-->";
        s := s + Decimal(ports[i].PrivatePort as int);
        ghost var done := PortLabels(ports)[..i + 1];
        assert done[..i] == PortLabels(ports)[..i];
        i := i + 1;
      }
      assert PortLabels(ports)[..|ports|] == PortLabels(ports);
    }
  }

  /** The ports column is empty exactly when the container publishes no port. */
  lemma PortsCellEmpty(ports: seq<Port>)
    ensures PortsCell(ports) == "" <==> |ports| == 0
  {
  }

  /** A non-empty ports column begins and ends with a digit of a port number,
      never with a separator. */
  lemma PortsCellEdges(ports: seq<Port>)
    requires |ports| > 0
    ensures |PortsCell(ports)| > 0
    ensures IsDigit(PortsCell(ports)[0])
    ensures IsDigit(PortsCell(ports)[|PortsCell(ports)| - 1])
  {
    var labels := PortLabels(ports);
    JoinEdges(labels, Sep);
    var last := labels[|labels| - 1];
    var priv := Decimal(ports[|ports| - 1].PrivatePort as int);
    assert last[|last| - 1] == priv[|priv| - 1];
  }

  // ---------------------------------------------------------------------------
  // The names column

  /** Every name with the ", " the builder writes after it. */
  function Suffixed(names: seq<string>): (r: seq<string>)
    ensures |r| == |names|
    ensures forall i :: 0 <= i < |names| ==> r[i] == names[i] + Sep
  {
    seq(|names|, i requires 0 <= i < |names| => names[i] + Sep)
  }

  /** The names column as the builder writes it: each name is followed by ", ",
      and every name after the first is also preceded by ", ". */
  function NamesCell(names: seq<string>): string {
    Join(Suffixed(names), Sep)
  }

  /** Builds the names column in a buffer, one name at a time. */
  method RenderNames(names: seq<string>) returns (s: string)
    ensures s == NamesCell(names)
  {
    s := "";
    if |names| > 0 {
      var i := 0;
      while i < |names|
        invariant 0 <= i <= |names|
        invariant s == Join(Suffixed(names)[..i], Sep)
      {
        if i > 0 {
          s := s + Sep;
        }
        s := s + names[i];
        s := s + Sep;
        ghost var done := Suffixed(names)[..i + 1];
        assert done[..i] == Suffixed(names)[..i];
        i := i + 1;
      }
      assert Suffixed(names)[..|names|] == Suffixed(names);
    }
  }

  function Concat(parts: seq<string>): string
    decreases |parts|
  {
    if |parts| == 0 then "" else Concat(parts[..|parts| - 1]) + parts[|parts| - 1]
  }

  /** Every name after the first as the builder writes it: ", " + name + ", ". */
  function Wrapped(names: seq<string>): (r: seq<string>)
    ensures |r| == |names|
    ensures forall i :: 0 <= i < |names| ==> r[i] == Sep + names[i] + Sep
  {
    seq(|names|, i requires 0 <= i < |names| => Sep + names[i] + Sep)
  }

  /** For names n0..nk the column is n0 + ", " followed by ", " + ni + ", " for each i >= 1. */
  lemma {:induction false} NamesCellShape(names: seq<string>)
    requires |names| > 0
    ensures NamesCell(names) == names[0] + Sep + Concat(Wrapped(names[1..]))
  {
    var k := |names| - 1;
    if k == 0 {
      assert Wrapped(names[1..]) == [];
    } else {
      var init := names[..k];
      NamesCellShape(init);
      assert Suffixed(names)[..k] == Suffixed(init);
      assert init[1..] == names[1..][..k - 1];
      assert Wrapped(names[1..])[..k - 1] == Wrapped(init[1..]);
      calc {
        NamesCell(names);
        Join(Suffixed(init), Sep) + Sep + (names[k] + Sep);
        (init[0] + Sep + Concat(Wrapped(init[1..]))) + (Sep + names[k] + Sep);
        { assert init[0] == names[0]; }
        names[0] + Sep + (Concat(Wrapped(names[1..])[..k - 1]) + Wrapped(names[1..])[k - 1]);
        names[0] + Sep + Concat(Wrapped(names[1..]));
      }
    }
  }

  /** The names column is longer than the plain ", "-join of the names by
      two characters per name, so for any non-empty list it is not that join. */
  lemma {:induction false} NamesCellLength(names: seq<string>)
    ensures |NamesCell(names)| == |Join(names, Sep)| + 2 * |names|
  {
    var k := |names| - 1;
    if k >= 1 {
      var init := names[..k];
      NamesCellLength(init);
      assert Suffixed(names)[..k] == Suffixed(init);
    }
  }

  /** Two names render as "a, , b, "; the plain join would be "a, b". */
  lemma NamesCellExample()
    ensures NamesCell(["a", "b"]) == "a, , b, "
    ensures Join(["a", "b"], Sep) == "a, b"
    ensures NamesCell([]) == ""
  {
  }

  // ---------------------------------------------------------------------------
  // The table

  /** The display cuts every identifier to its first ten characters, so a
      snapshot can be rendered only when every identifier has at least ten. */
  predicate WellFormed(cs: seq<Container>) {
    forall i :: 0 <= i < |cs| ==> |cs[i].ID| >= 10
  }

  function Row(c: Container): seq<string>
    requires |c.ID| >= 10
  {
    [c.ID[..10], c.Image, PortsCell(c.Ports), c.Status, NamesCell(c.Names)]
  }

  /** The rows pushed to the table widget: the header, then one row per
      container in snapshot order, row i + 1 showing container i. */
  function Table(cs: seq<Container>): (t: seq<seq<string>>)
    requires WellFormed(cs)
    ensures |t| == |cs| + 1 && t[0] == Header
    ensures forall i :: 0 <= i < |cs| ==> t[i + 1] == Row(cs[i])
    decreases |cs|
  {
    if |cs| == 0 then [Header] else Table(cs[..|cs| - 1]) + [Row(cs[|cs| - 1])]
  }

  /** Every container row has the five columns of the header, its identifier
      column is the ten-character prefix of the container's identifier, and
      its ports column is empty exactly when the container has no ports. */
  lemma TableColumns(cs: seq<Container>, i: nat)
    requires WellFormed(cs) && i < |cs|
    ensures |Table(cs)[i + 1]| == |Header|
    ensures |Table(cs)[i + 1][0]| == 10 && cs[i].ID[..10] == Table(cs)[i + 1][0]
    ensures Table(cs)[i + 1][1] == cs[i].Image && Table(cs)[i + 1][3] == cs[i].Status
    ensures Table(cs)[i + 1][2] == "" <==> cs[i].Ports == []
    ensures Table(cs)[i + 1][4] == NamesCell(cs[i].Names)
  {
    PortsCellEmpty(cs[i].Ports);
  }

  /** The row-building loop of a refresh: header first, then a row per container. */
  method BuildRows(cs: seq<Container>) returns (rows: seq<seq<string>>)
    requires WellFormed(cs)
    ensures rows == Table(cs)
  {
    rows := [Header];
    var i := 0;
    while i < |cs|
      invariant 0 <= i <= |cs|
      invariant rows == Table(cs[..i])
    {
      var c := cs[i];
      var ports := RenderPorts(c.Ports);
      var names := RenderNames(c.Names);
      rows := rows + [[c.ID[..10], c.Image, ports, c.Status, names]];
      assert cs[..i + 1][..i] == cs[..i];
      i := i + 1;
    }
    assert cs[..|cs|] == cs;
  }
}
