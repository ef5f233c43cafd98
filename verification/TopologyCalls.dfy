/** What two boards added to an empty topology are reported as, whatever the order of the calls. */
module TopologyCalls {
  import opened Bytes
  import opened Topology

  /** A board and the record it exposes. */
  datatype Board = Board(path: Path, boardType: string, name: string, item: Item)

  function Added(b: Board): Op {
    AddBoard(b.path, b.boardType, b.name, b.item)
  }

  /** The two calls, in one order or the other. */
  function Calls(b: Board, c: Board, inOrder: bool): seq<Op> {
    if inOrder then [Added(b), Added(c)] else [Added(c), Added(b)]
  }

  lemma EmptyHistory(port: string, path: Path, role: Role)
    ensures !Live([], port, path, role) && TypeOf([], path) == None && !ProbeLive([], path, port)
  {
  }

  /** What the calls have recorded. */
  lemma TwoCalls(b: Board, c: Board, port: string, path: Path, role: Role)
    requires b.path != c.path && IsPort(b.item) && IsPort(c.item)
    ensures var h := [Added(b), Added(c)];
            && (Live(h, port, path, role) <==> || (path == b.path && (port, role) in Claims(b.item))
                                               || (path == c.path && (port, role) in Claims(c.item)))
            && TypeOf(h, b.path) == Some(b.boardType) && TypeOf(h, c.path) == Some(c.boardType)
            && !ProbeLive(h, path, port)
  {
    var none: seq<Op> := [];
    assert none + [Added(b)] == [Added(b)] && [Added(b)] + [Added(c)] == [Added(b), Added(c)];
    AfterAdd(none, b.path, b.boardType, b.name, b.item);
    AfterAdd([Added(b)], c.path, c.boardType, c.name, c.item);
  }

  lemma EitherOrder(b: Board, c: Board, inOrder: bool, port: string, path: Path, role: Role)
    requires b.path != c.path && IsPort(b.item) && IsPort(c.item)
    ensures var h := Calls(b, c, inOrder);
            && (Live(h, port, path, role) <==> || (path == b.path && (port, role) in Claims(b.item))
                                               || (path == c.path && (port, role) in Claims(c.item)))
            && TypeOf(h, b.path) == Some(b.boardType) && TypeOf(h, c.path) == Some(c.boardType)
            && !ProbeLive(h, path, port)
  {
    if inOrder {
      TwoCalls(b, c, port, path, role);
    } else {
      TwoCalls(c, b, port, path, role);
    }
  }

  /** On some port `mine` claims the role and `theirs` the reverse one. */
  predicate Meet(mine: Item, theirs: Item, role: Role) {
    exists port :: port in PortsOf(mine) && (port, role) in Claims(mine) && (port, Reverse(role)) in Claims(theirs)
  }

  function PortsOf(item: Item): set<string> {
    set claim | claim in Claims(item) :: claim.0
  }

  /** `a` is an association of `mine` with `theirs`. */
  predicate Reports(mine: Board, theirs: Board, a: Association) {
    && a.path == theirs.path && (a.role.ContainedBy? || a.role.Powering?) && a.reverse == Reverse(a.role)
    && mine.boardType in AllowedOn(a.role) && Meet(mine.item, theirs.item, a.role)
  }

  lemma BoardReports(b: Board, c: Board, inOrder: bool, a: Association)
    requires b.path != c.path && IsPort(b.item) && IsPort(c.item)
    ensures Linked(Calls(b, c, inOrder), b.path, a) <==> Reports(b, c, a)
  {
    var h := Calls(b, c, inOrder);
    forall port, path, role
      ensures Live(h, port, path, role) <==> || (path == b.path && (port, role) in Claims(b.item))
                                             || (path == c.path && (port, role) in Claims(c.item))
      ensures TypeOf(h, b.path) == Some(b.boardType)
    {
      EitherOrder(b, c, inOrder, port, path, role);
    }
    EitherOrder(b, c, inOrder, "", b.path, a.role);
    if Linked(h, b.path, a) {
      var port :| Live(h, port, b.path, a.role) && Live(h, port, a.path, a.reverse);
      assert (port, a.role) in Claims(b.item);
    }
    if Reports(b, c, a) {
      var port :| port in PortsOf(b.item) && (port, a.role) in Claims(b.item) && (port, a.reverse) in Claims(c.item);
      assert Live(h, port, b.path, a.role) && Live(h, port, a.path, a.reverse);
    }
  }

  lemma CallsSymmetric(b: Board, c: Board, inOrder: bool)
    ensures Calls(b, c, inOrder) == Calls(c, b, !inOrder)
  {
  }

  /** The two boards' associations are those of each with the other. */
  lemma BothReport(b: Board, c: Board, inOrder: bool, u: Path, a: Association)
    requires b.path != c.path && IsPort(b.item) && IsPort(c.item)
    ensures Associated(Calls(b, c, inOrder), {b.path, c.path}, u, a) <==>
              (u == b.path && Reports(b, c, a)) || (u == c.path && Reports(c, b, a))
  {
    CallsSymmetric(b, c, inOrder);
    BoardReports(b, c, inOrder, a);
    BoardReports(c, b, !inOrder, a);
    EitherOrder(b, c, inOrder, a.path, u, a.role);
  }

  // ---- slots and cards ----

  /** A port of a type of its own, which ends in "Port". */
  predicate IsSlot(item: Item, port: string) {
    && item.exposesType == Some(port) && port != "Port" && port != "DownstreamPort"
    && |port| >= 4 && port[|port| - 4..] == "Port"
  }

  predicate IsCard(item: Item, port: string) {
    item.exposesType == Some("DownstreamPort") && item.connectsToType == Some(port)
  }

  /** What a card on a slot is reported as: contained by it and, with a power port, powering it, if
      boards of its type may be. */
  predicate CardReports(card: Board, slot: Path, a: Association) {
    || (a == Association(ContainedBy, Containing, slot)
        && card.boardType in {"Board", "Chassis", "Cpu", "Dimm", "PowerSupply", "NVMe"})
    || (a == Association(Powering, PoweredBy, slot) && card.item.powerPort
        && card.boardType in {"Chassis", "PowerSupply"})
  }

  lemma SlotClaims(item: Item, port: string)
    requires IsSlot(item, port)
    ensures Claims(item) == {(port, Containing), (port, PoweredBy)} && IsPort(item)
  {
  }

  lemma CardClaims(item: Item, port: string)
    requires IsCard(item, port)
    ensures Claims(item) == {(port, ContainedBy)} + (if item.powerPort then {(port, Powering)} else {})
    ensures IsPort(item)
  {
    PortLiterals();
  }

  lemma CardMeetsSlot(card: Item, slot: Item, port: string, role: Role)
    requires IsCard(card, port) && IsSlot(slot, port)
    ensures Meet(card, slot, role) <==> role == ContainedBy || (role == Powering && card.powerPort)
    ensures Meet(slot, card, role) ==> role == Containing || role == PoweredBy
  {
    SlotClaims(slot, port);
    CardClaims(card, port);
    if role == ContainedBy || (role == Powering && card.powerPort) {
      assert (port, role) in Claims(card);
    }
  }

  /** A board with a slot and a board that plugs into it, added in any order: exactly the second one
      reports associations, and exactly those with the first. */
  lemma SlotAndCard(slot: Board, card: Board, port: string, inOrder: bool, u: Path, a: Association)
    requires slot.path != card.path && IsSlot(slot.item, port) && IsCard(card.item, port)
    ensures Associated(Calls(slot, card, inOrder), {slot.path, card.path}, u, a) <==>
              u == card.path && CardReports(card, slot.path, a)
  {
    SlotClaims(slot.item, port);
    CardClaims(card.item, port);
    BothReport(slot, card, inOrder, u, a);
    CardMeetsSlot(card.item, slot.item, port, a.role);
  }

  // ---- ports with a configured role ----

  /** A record that gives its board the role called `role` on `port`. */
  predicate HasRole(item: Item, port: string, role: string) {
    item.exposesType == Some("Port") && item.name == Some(port) && item.portType == Some(role)
  }

  /** What a board with the role `mine` is reported as when another one has the role `theirs`. */
  predicate RoleReports(mine: string, theirs: string, boardType: string, other: Path, a: Association) {
    || (mine == "contained_by" && theirs == "containing" && a == Association(ContainedBy, Containing, other)
        && boardType in {"Board", "Chassis", "Cpu", "Dimm", "PowerSupply", "NVMe"})
    || (mine == "powering" && theirs == "powered_by" && a == Association(Powering, PoweredBy, other)
        && boardType in {"Chassis", "PowerSupply"})
  }

  lemma RoleClaims(item: Item, port: string, role: string)
    requires HasRole(item, port, role)
    ensures IsPort(item)
    ensures Claims(item) == match GetAssocByName(role) case None => {} case Some(r) => {(port, r)}
  {
    PortLiterals();
  }

  lemma RoleNames(name: string)
    ensures GetAssocByName(name) == Some(Containing) <==> name == "containing"
    ensures GetAssocByName(name) == Some(ContainedBy) <==> name == "contained_by"
    ensures GetAssocByName(name) == Some(Powering) <==> name == "powering"
    ensures GetAssocByName(name) == Some(PoweredBy) <==> name == "powered_by"
  {
  }

  lemma RoleReportsBy(mine: string, theirs: string, boardType: string, other: Path, a: Association)
    ensures RoleReports(mine, theirs, boardType, other, a) <==>
              && a.path == other && (a.role.ContainedBy? || a.role.Powering?) && a.reverse == Reverse(a.role)
              && boardType in AllowedOn(a.role)
              && GetAssocByName(mine) == Some(a.role) && GetAssocByName(theirs) == Some(a.reverse)
  {
    RoleNames(mine);
    RoleNames(theirs);
    ReportedTypes(boardType, other, a);
  }

  lemma ReportedTypes(boardType: string, other: Path, a: Association)
    ensures (a == Association(ContainedBy, Containing, other)
             && boardType in {"Board", "Chassis", "Cpu", "Dimm", "PowerSupply", "NVMe"}) <==>
              a.path == other && a.role.ContainedBy? && a.reverse == Reverse(a.role) && boardType in AllowedOn(a.role)
    ensures (a == Association(Powering, PoweredBy, other) && boardType in {"Chassis", "PowerSupply"}) <==>
              a.path == other && a.role.Powering? && a.reverse == Reverse(a.role) && boardType in AllowedOn(a.role)
  {
  }

  lemma RolesMeet(mine: Item, theirs: Item, role: Role)
    requires exists port, m, t :: HasRole(mine, port, m) && HasRole(theirs, port, t)
    ensures Meet(mine, theirs, role) <==>
              && GetAssocByName(mine.portType.value) == Some(role)
              && GetAssocByName(theirs.portType.value) == Some(Reverse(role))
  {
    var port, m, t :| HasRole(mine, port, m) && HasRole(theirs, port, t);
    RoleClaims(mine, port, m);
    RoleClaims(theirs, port, t);
    if GetAssocByName(m) == Some(role) {
      assert (port, role) in Claims(mine);
    }
  }

  lemma RoleBoardReports(b: Board, c: Board, port: string, m: string, t: string, a: Association)
    requires HasRole(b.item, port, m) && HasRole(c.item, port, t)
    ensures Reports(b, c, a) <==> RoleReports(m, t, b.boardType, c.path, a)
  {
    RolesMeet(b.item, c.item, a.role);
    RoleReportsBy(m, t, b.boardType, c.path, a);
  }

  /** Two boards with configured roles on one port: an association is reported exactly for the two
      pairs of opposite roles, by the contained or the powering board. */
  lemma ConfiguredRoles(b: Board, c: Board, port: string, m: string, t: string, inOrder: bool, u: Path, a: Association)
    requires b.path != c.path && HasRole(b.item, port, m) && HasRole(c.item, port, t)
    ensures Associated(Calls(b, c, inOrder), {b.path, c.path}, u, a) <==>
              || (u == b.path && RoleReports(m, t, b.boardType, c.path, a))
              || (u == c.path && RoleReports(t, m, c.boardType, b.path, a))
  {
    RoleClaims(b.item, port, m);
    RoleClaims(c.item, port, t);
    BothReport(b, c, inOrder, u, a);
    RoleBoardReports(b, c, port, m, t, a);
    RoleBoardReports(c, b, port, t, m, a);
  }

  /** A port record that lacks a field it needs, or whose role has no such name. */
  predicate Incomplete(item: Item) {
    || (item.exposesType == Some("DownstreamPort") && item.connectsToType.None?)
    || (item.exposesType == Some("Port")
        && (item.name.None? || item.portType.None?
            || item.portType.value !in {"containing", "contained_by", "powering", "powered_by"}))
  }

  lemma IncompleteClaims(item: Item)
    requires Incomplete(item)
    ensures IsPort(item) && Claims(item) == {}
  {
    PortLiterals();
    if item.exposesType == Some("Port") && item.portType.Some? {
      RoleNames(item.portType.value);
    }
  }

  /** Such a record leaves its board without associations. */
  lemma IncompletePort(b: Board, c: Board, inOrder: bool, u: Path, a: Association)
    requires b.path != c.path && Incomplete(b.item) && IsPort(c.item)
    ensures !Associated(Calls(b, c, inOrder), {b.path, c.path}, u, a)
  {
    IncompleteClaims(b.item);
    BothReport(b, c, inOrder, u, a);
  }

  /** A record of any other type has no part in the topology: the board is not reported. */
  lemma NoPort(b: Board, history: seq<Op>, boardPaths: set<Path>, u: Path, a: Association)
    requires b.item.exposesType.Some? ==> var t := b.item.exposesType.value; |t| < 4 || t[|t| - 4..] != "Port"
    ensures Associated(history + [Added(b)], boardPaths, u, a) <==> Associated(history, boardPaths, u, a)
  {
    NoClaims(b.item);
    AfterAdd(history, b.path, b.boardType, b.name, b.item);
    var h := history + [Added(b)];
    assert forall port, p, role :: Live(h, port, p, role) <==> Live(history, port, p, role);
  }

  lemma NoClaims(item: Item)
    requires item.exposesType.Some? ==> var t := item.exposesType.value; |t| < 4 || t[|t| - 4..] != "Port"
    ensures Claims(item) == {} && !IsPort(item)
  {
    PortLiterals();
  }

  /** The calls themselves. */
  method AddBoth(b: Board, c: Board, inOrder: bool) returns (result: Result)
    ensures forall u, a :: In(result, u, a) <==> Associated(Calls(b, c, inOrder), {b.path, c.path}, u, a)
    ensures NoneEmpty(result)
  {
    var topology := new Topology();
    if inOrder {
      topology.AddBoard(b.path, b.boardType, b.name, b.item);
      topology.AddBoard(c.path, c.boardType, c.name, c.item);
    } else {
      topology.AddBoard(c.path, c.boardType, c.name, c.item);
      topology.AddBoard(b.path, b.boardType, b.name, b.item);
    }
    assert topology.history == Calls(b, c, inOrder);
    result := topology.GetAssocs({b.path, c.path});
  }

  /** A slot and a card, added in any order and asked for. */
  method PlugIn(slot: Board, card: Board, port: string, inOrder: bool) returns (result: Result)
    requires slot.path != card.path && IsSlot(slot.item, port) && IsCard(card.item, port)
    ensures forall u, a :: In(result, u, a) <==> u == card.path && CardReports(card, slot.path, a)
    ensures NoneEmpty(result)
  {
    result := AddBoth(slot, card, inOrder);
    forall u, a ensures In(result, u, a) <==> u == card.path && CardReports(card, slot.path, a) {
      SlotAndCard(slot, card, port, inOrder, u, a);
    }
  }

  /** Two boards with roles on a port, added in any order and asked for. */
  method Connect(b: Board, c: Board, port: string, m: string, t: string, inOrder: bool) returns (result: Result)
    requires b.path != c.path && HasRole(b.item, port, m) && HasRole(c.item, port, t)
    ensures forall u, a :: In(result, u, a) <==>
              || (u == b.path && RoleReports(m, t, b.boardType, c.path, a))
              || (u == c.path && RoleReports(t, m, c.boardType, b.path, a))
    ensures NoneEmpty(result)
  {
    result := AddBoth(b, c, inOrder);
    forall u, a
      ensures In(result, u, a) <==> || (u == b.path && RoleReports(m, t, b.boardType, c.path, a))
                                    || (u == c.path && RoleReports(t, m, c.boardType, b.path, a))
    {
      ConfiguredRoles(b, c, port, m, t, inOrder, u, a);
    }
  }
}
