/** The topology index: boards take roles on ports, and two boards with opposite roles on one port are
    associated. The index is a function of the calls that built it. */
module Topology {
  import opened Bytes

  type Path = string

  datatype Role = Containing | ContainedBy | Powering | PoweredBy | Probing | ProbedBy

  function Reverse(r: Role): Role {
    match r
    case Containing => ContainedBy
    case ContainedBy => Containing
    case Powering => PoweredBy
    case PoweredBy => Powering
    case Probing => ProbedBy
    case ProbedBy => Probing
  }

  /** The board types a role is allowed on. */
  function AllowedOn(r: Role): set<string> {
    match r
    case Containing => {"Board", "Chassis"}
    case ContainedBy => {"Board", "Chassis", "Cpu", "Dimm", "PowerSupply", "NVMe"}
    case Powering => {"Chassis", "PowerSupply"}
    case PoweredBy => {"Board", "Chassis", "PowerSupply"}
    case _ => {}
  }

  /** The configurable roles, by name. */
  function GetAssocByName(name: string): Option<Role> {
    if name == "containing" then Some(Containing)
    else if name == "contained_by" then Some(ContainedBy)
    else if name == "powering" then Some(Powering)
    else if name == "powered_by" then Some(PoweredBy)
    else None
  }

  datatype Association = Association(role: Role, reverse: Role, path: Path)

  /** The fields of an exposed record the topology looks at. */
  datatype Item = Item(exposesType: Option<string>, name: Option<string>, portType: Option<string>,
                       connectsToType: Option<string>, powerPort: bool)

  predicate EndsWithPort(s: string) {
    |s| >= 4 && s[|s| - 4..] == "Port"
  }

  /** Port and role pairs an exposed record claims for its board. */
  function Claims(item: Item): set<(string, Role)> {
    match item.exposesType
    case None => {}
    case Some(t) =>
      if t == "DownstreamPort" then
        match item.connectsToType
        case None => {}
        case Some(c) => {(c, ContainedBy)} + if item.powerPort then {(c, Powering)} else {}
      else if t == "Port" then
        if item.name.None? || item.portType.None? || GetAssocByName(item.portType.value).None? then {}
        else {(item.name.value, GetAssocByName(item.portType.value).value)}
      else if EndsWithPort(t) then {(t, Containing), (t, PoweredBy)}
      else {}
  }

  predicate IsPort(item: Item) {
    item.exposesType.Some? && EndsWithPort(item.exposesType.value)
  }

  lemma PortLiterals()
    ensures EndsWithPort("DownstreamPort") && EndsWithPort("Port")
  {
    assert "DownstreamPort"[10..] == "Port" && "Port"[0..] == "Port";
  }

  datatype Op =
    | AddBoard(path: Path, boardType: string, boardName: string, item: Item)
    | AddProbePath(board: Path, probe: Path)
    | Remove(name: string)

  // ---- what the index says after a run of calls ----

  /** The path a board name stands for: where it was first added since it was last removed. */
  function PathOf(history: seq<Op>, name: string): Option<Path> {
    if history == [] then None
    else
      var before := PathOf(history[..|history| - 1], name);
      match history[|history| - 1]
      case AddBoard(path, _, n, item) =>
        if n == name && item.exposesType.Some? && before.None? then Some(path) else before
      case Remove(n) => if n == name then None else before
      case _ => before
  }

  function TypeOf(history: seq<Op>, path: Path): Option<string> {
    if history == [] then None
    else
      var before := TypeOf(history[..|history| - 1], path);
      match history[|history| - 1]
      case AddBoard(p, t, _, item) => if p == path && IsPort(item) then Some(t) else before
      case _ => before
  }

  /** `path` has `role` on `port`. */
  predicate Live(history: seq<Op>, port: string, path: Path, role: Role) {
    if history == [] then false
    else
      var init := history[..|history| - 1];
      match history[|history| - 1]
      case AddBoard(p, _, _, item) => Live(init, port, path, role) || (p == path && (port, role) in Claims(item))
      case Remove(n) => Live(init, port, path, role) && PathOf(init, n) != Some(path)
      case _ => Live(init, port, path, role)
  }

  predicate ProbeLive(history: seq<Op>, board: Path, probe: Path) {
    if history == [] then false
    else
      var init := history[..|history| - 1];
      match history[|history| - 1]
      case AddProbePath(b, p) => ProbeLive(init, board, probe) || (b == board && p == probe)
      case Remove(n) => ProbeLive(init, board, probe) && (n != board || PathOf(init, n).None?)
      case _ => ProbeLive(init, board, probe)
  }

  lemma AfterAdd(h: seq<Op>, path: Path, boardType: string, boardName: string, item: Item)
    ensures var h' := h + [AddBoard(path, boardType, boardName, item)];
            && (forall port, p, role :: Live(h', port, p, role) <==>
                 Live(h, port, p, role) || (p == path && (port, role) in Claims(item)))
            && (forall p :: TypeOf(h', p) == if p == path && IsPort(item) then Some(boardType) else TypeOf(h, p))
            && (forall board, probe :: ProbeLive(h', board, probe) <==> ProbeLive(h, board, probe))
    ensures var h' := h + [AddBoard(path, boardType, boardName, item)];
            forall name :: PathOf(h', name) ==
              if name == boardName && item.exposesType.Some? && PathOf(h, name).None? then Some(path)
              else PathOf(h, name)
  {
    assert (h + [AddBoard(path, boardType, boardName, item)])[..|h|] == h;
  }

  lemma AfterRemove(h: seq<Op>, n: string)
    ensures var h' := h + [Remove(n)];
            && (forall port, p, role :: Live(h', port, p, role) <==> Live(h, port, p, role) && PathOf(h, n) != Some(p))
            && (forall p :: TypeOf(h', p) == TypeOf(h, p))
            && (forall name :: PathOf(h', name) == if name == n then None else PathOf(h, name))
            && (forall board, probe :: ProbeLive(h', board, probe) <==>
                 ProbeLive(h, board, probe) && (n != board || PathOf(h, n).None?))
  {
    assert (h + [Remove(n)])[..|h|] == h;
  }

  lemma AfterProbe(h: seq<Op>, b: Path, q: Path)
    ensures var h' := h + [AddProbePath(b, q)];
            && (forall port, p, role :: Live(h', port, p, role) <==> Live(h, port, p, role))
            && (forall p :: TypeOf(h', p) == TypeOf(h, p))
            && (forall name :: PathOf(h', name) == PathOf(h, name))
            && (forall board, probe :: ProbeLive(h', board, probe) <==>
                 ProbeLive(h, board, probe) || (board == b && probe == q))
  {
    assert (h + [AddProbePath(b, q)])[..|h|] == h;
  }

  predicate AddsAt(history: seq<Op>, i: nat, port: string, path: Path, role: Role)
    requires i < |history|
  {
    history[i].AddBoard? && history[i].path == path && (port, role) in Claims(history[i].item)
  }

  predicate RemovesAt(history: seq<Op>, j: nat, path: Path)
    requires j < |history|
  {
    history[j].Remove? && PathOf(history[..j], history[j].name) == Some(path)
  }

  /** Call `i` gave the role, and no later one has removed the board at `path`. */
  ghost predicate GivenAt(history: seq<Op>, i: nat, port: string, path: Path, role: Role)
    requires i < |history|
  {
    AddsAt(history, i, port, path, role) && forall j :: i < j < |history| ==> !RemovesAt(history, j, path)
  }

  lemma GivenBefore(history: seq<Op>, i: nat, port: string, path: Path, role: Role)
    requires i < |history| - 1
    ensures var n := |history| - 1;
            GivenAt(history, i, port, path, role) <==>
              GivenAt(history[..n], i, port, path, role) && !RemovesAt(history, n, path)
  {
    var n := |history| - 1;
    var init := history[..n];
    assert forall j :: 0 <= j < n ==> init[j] == history[j] && history[..j] == init[..j];
    assert forall j :: 0 <= j < n ==> RemovesAt(history, j, path) == RemovesAt(init, j, path);
  }

  /** Some call gave `path` the role, and no later one removed the board there. */
  lemma {:induction false} LiveExplained(history: seq<Op>, port: string, path: Path, role: Role)
    ensures Live(history, port, path, role) <==> exists i :: 0 <= i < |history| && GivenAt(history, i, port, path, role)
  {
    if history != [] {
      var n := |history| - 1;
      LiveExplained(history[..n], port, path, role);
      forall i | 0 <= i < n
        ensures GivenAt(history, i, port, path, role) <==>
                  GivenAt(history[..n], i, port, path, role) && !RemovesAt(history, n, path)
      {
        GivenBefore(history, i, port, path, role);
      }
      assert GivenAt(history, n, port, path, role) <==> AddsAt(history, n, port, path, role);
    }
  }

  /** The port associations of board `u`: on some port it has a role, another board has the reverse
      role, its type allows the role, and it is the side that is recorded. */
  ghost predicate Linked(history: seq<Op>, u: Path, a: Association) {
    && a.reverse == Reverse(a.role) && (a.role.ContainedBy? || a.role.Powering?)
    && u != a.path
    && TypeOf(history, u).Some? && TypeOf(history, u).value in AllowedOn(a.role)
    && exists port :: Live(history, port, u, a.role) && Live(history, port, a.path, a.reverse)
  }

  /** All associations recorded for `u` when the boards at `boardPaths` are asked for. */
  ghost predicate Associated(history: seq<Op>, boardPaths: set<Path>, u: Path, a: Association) {
    && u in boardPaths
    && (Linked(history, u, a) || (a.role == Probing && a.reverse == ProbedBy && ProbeLive(history, u, a.path)))
  }

  /** Removing a board removes its associations and those that point at it, and no others. */
  lemma RemoveIsExact(history: seq<Op>, name: string, u: Path, a: Association)
    ensures Linked(history + [Remove(name)], u, a) <==>
              Linked(history, u, a) && PathOf(history, name) != Some(u) && PathOf(history, name) != Some(a.path)
  {
    var after := history + [Remove(name)];
    AfterRemove(history, name);
    if Linked(history, u, a) && PathOf(history, name) != Some(u) && PathOf(history, name) != Some(a.path) {
      var port :| Live(history, port, u, a.role) && Live(history, port, a.path, a.reverse);
      assert Live(after, port, u, a.role) && Live(after, port, a.path, a.reverse);
    }
  }

  predicate ForgetsAt(history: seq<Op>, j: nat, board: Path)
    requires j < |history|
  {
    history[j].Remove? && history[j].name == board && PathOf(history[..j], board).Some?
  }

  /** Call `i` gave the probe path, and no later one has removed a board whose name is `board`. */
  ghost predicate ProbedAt(history: seq<Op>, i: nat, board: Path, probe: Path)
    requires i < |history|
  {
    history[i] == AddProbePath(board, probe) && forall j :: i < j < |history| ==> !ForgetsAt(history, j, board)
  }

  /** A probing association is recorded for a board if and only if some call gave it and no later one
      removed a board whose name is that board's path. Whether the board itself is still there does
      not matter. */
  lemma ProbingExplained(history: seq<Op>, boardPaths: set<Path>, board: Path, probe: Path)
    ensures Associated(history, boardPaths, board, Association(Probing, ProbedBy, probe)) <==>
              board in boardPaths && exists i :: 0 <= i < |history| && ProbedAt(history, i, board, probe)
  {
    ProbeLiveExplained(history, board, probe);
  }

  lemma ProbedBefore(history: seq<Op>, i: nat, board: Path, probe: Path)
    requires i < |history| - 1
    ensures var n := |history| - 1;
            ProbedAt(history, i, board, probe) <==>
              ProbedAt(history[..n], i, board, probe) && !ForgetsAt(history, n, board)
  {
    var n := |history| - 1;
    var init := history[..n];
    assert forall j :: 0 <= j < n ==> init[j] == history[j] && history[..j] == init[..j];
    assert forall j :: 0 <= j < n ==> ForgetsAt(history, j, board) == ForgetsAt(init, j, board);
  }

  lemma {:induction false} ProbeLiveExplained(history: seq<Op>, board: Path, probe: Path)
    ensures ProbeLive(history, board, probe) <==> exists i :: 0 <= i < |history| && ProbedAt(history, i, board, probe)
  {
    if history != [] {
      var n := |history| - 1;
      ProbeLiveExplained(history[..n], board, probe);
      forall i | 0 <= i < n
        ensures ProbedAt(history, i, board, probe) <==>
                  ProbedAt(history[..n], i, board, probe) && !ForgetsAt(history, n, board)
      {
        ProbedBefore(history, i, board, probe);
      }
      assert ProbedAt(history, n, board, probe) <==> history[n] == AddProbePath(board, probe);
    }
  }

  /** Asking for two groups of boards at once gives what asking for each gives. */
  lemma Distributes(history: seq<Op>, some: set<Path>, more: set<Path>, u: Path, a: Association)
    ensures Associated(history, some + more, u, a) <==>
              Associated(history, some, u, a) || Associated(history, more, u, a)
  {
  }

  /** Only one end of a port association records it. */
  lemma OneEnd(history: seq<Op>, u: Path, a: Association)
    requires Linked(history, u, a)
    ensures !Linked(history, a.path, Association(a.reverse, a.role, u))
  {
  }

  type Roles = map<Path, set<Role>>
  type Result = map<Path, set<Association>>

  predicate In(result: Result, u: Path, a: Association) {
    u in result && a in result[u]
  }

  function Put(result: Result, u: Path, a: Association): (r: Result)
    ensures forall v, b :: In(r, v, b) <==> In(result, v, b) || (v == u && b == a)
    ensures (forall v :: v in result ==> result[v] != {}) ==> forall v :: v in r ==> r[v] != {}
  {
    if u in result then result[u := result[u] + {a}] else result[u := {a}]
  }

  /** What one port's boards are associated with. */
  predicate Agrees(roles: Roles, types: map<Path, string>, boardPaths: set<Path>, u: Path, a: Association) {
    && u in roles && a.path in roles && u != a.path && u in boardPaths
    && a.role in roles[u] && a.reverse == Reverse(a.role) && a.reverse in roles[a.path]
    && u in types && types[u] in AllowedOn(a.role)
    && (a.role.ContainedBy? || a.role.Powering?)
  }

  predicate NoneEmpty(result: Result) {
    forall u :: u in result ==> result[u] != {}
  }

  method FillAssocForPortId(result: Result, types: map<Path, string>, boardPaths: set<Path>, upstream: Path,
                            downstream: Path, role: Role)
    returns (result': Result)
    requires upstream in types && !role.Probing? && !role.ProbedBy?
    ensures forall u, b :: In(result', u, b) <==>
              (In(result, u, b)
               || (u == upstream && b == Association(role, Reverse(role), downstream)
                  && types[upstream] in AllowedOn(role)
                   && upstream in boardPaths && (role.ContainedBy? || role.Powering?)))
    ensures NoneEmpty(result) ==> NoneEmpty(result')
  {
    result' := result;
    if types[upstream] !in AllowedOn(role) {
      return;
    }
    if upstream !in boardPaths {
      return;
    }
    if role == Containing || role == PoweredBy {
      return;
    }
    result' := Put(result, upstream, Association(role, Reverse(role), downstream));
  }

  predicate PortRoles(roles: Roles) {
    forall p :: p in roles ==> Probing !in roles[p] && ProbedBy !in roles[p]
  }

  /** The associations between two boards of one port. */
  method FillPair(result: Result, types: map<Path, string>, boardPaths: set<Path>, roles: Roles, member: Path,
                  other: Path)
    returns (result': Result)
    requires member in roles && other in roles && member != other && member in types && PortRoles(roles)
    ensures forall u, a :: In(result', u, a) <==>
              In(result, u, a) || (u == member && a.path == other && Agrees(roles, types, boardPaths, u, a))
    ensures NoneEmpty(result) ==> NoneEmpty(result')
  {
    result' := result;
    var rest := roles[member];
    while rest != {}
      invariant rest <= roles[member]
      invariant forall u, a :: In(result', u, a) <==>
                  (In(result, u, a)
                    || (u == member && a.path == other && a.role !in rest && Agrees(roles, types, boardPaths, u, a)))
      invariant NoneEmpty(result) ==> NoneEmpty(result')
      decreases |rest|
    {
      var assocName :| assocName in rest;
      rest := rest - {assocName};
      if Reverse(assocName) in roles[other] {
        result' := FillAssocForPortId(result', types, boardPaths, member, other, assocName);
      }
    }
  }

  method FillMember(result: Result, types: map<Path, string>, boardPaths: set<Path>, roles: Roles, member: Path)
    returns (result': Result)
    requires member in roles && member in types && PortRoles(roles)
    ensures forall u, a :: In(result', u, a) <==>
              In(result, u, a) || (u == member && Agrees(roles, types, boardPaths, u, a))
    ensures NoneEmpty(result) ==> NoneEmpty(result')
  {
    result' := result;
    var rest := roles.Keys;
    while rest != {}
      invariant rest <= roles.Keys
      invariant forall u, a :: In(result', u, a) <==>
                  (In(result, u, a) || (u == member && a.path !in rest && Agrees(roles, types, boardPaths, u, a)))
      invariant NoneEmpty(result) ==> NoneEmpty(result')
      decreases |rest|
    {
      var other :| other in rest;
      rest := rest - {other};
      if other != member {
        result' := FillPair(result', types, boardPaths, roles, member, other);
      }
    }
  }

  method FillAssocsForPortId(result: Result, types: map<Path, string>, boardPaths: set<Path>, roles: Roles)
    returns (result': Result)
    requires roles.Keys <= types.Keys && PortRoles(roles)
    ensures forall u, a :: In(result', u, a) <==> In(result, u, a) || Agrees(roles, types, boardPaths, u, a)
    ensures NoneEmpty(result) ==> NoneEmpty(result')
  {
    result' := result;
    var rest := roles.Keys;
    while rest != {}
      invariant rest <= roles.Keys
      invariant forall u, a :: In(result', u, a) <==>
                  In(result, u, a) || (u !in rest && Agrees(roles, types, boardPaths, u, a))
      invariant NoneEmpty(result) ==> NoneEmpty(result')
      decreases |rest|
    {
      var member :| member in rest;
      rest := rest - {member};
      result' := FillMember(result', types, boardPaths, roles, member);
    }
  }

  predicate Has(ports: map<string, Roles>, port: string, path: Path, role: Role) {
    port in ports && path in ports[port] && role in ports[port][path]
  }

  lemma HasErased(ports: map<string, Roles>, port: string, path: Path)
    requires port in ports
    ensures forall q, p, r :: Has(ports[port := ports[port] - {path}], q, p, r) <==>
              Has(ports, q, p, r) && !(q == port && p == path)
  {
  }

  ghost predicate PortsRight(ports: map<string, Roles>, history: seq<Op>) {
    forall port, path, role :: Has(ports, port, path, role) <==> Live(history, port, path, role)
  }

  function Lookup(m: map<string, string>, k: string): Option<string> {
    if k in m then Some(m[k]) else None
  }

  predicate HasProbe(probePaths: map<Path, set<Path>>, board: Path, probe: Path) {
    board in probePaths && probe in probePaths[board]
  }

  ghost predicate NamesRight(boardNames: map<string, Path>, history: seq<Op>) {
    forall name :: Lookup(boardNames, name) == PathOf(history, name)
  }

  ghost predicate TypesRight(boardTypes: map<Path, string>, history: seq<Op>) {
    forall path :: Lookup(boardTypes, path) == TypeOf(history, path)
  }

  ghost predicate ProbesRight(probePaths: map<Path, set<Path>>, history: seq<Op>) {
    forall board, probe :: HasProbe(probePaths, board, probe) <==> ProbeLive(history, board, probe)
  }

  lemma OthersAdd(boardNames: map<string, Path>, boardTypes: map<Path, string>, probePaths: map<Path, set<Path>>,
                  h: seq<Op>, path: Path, boardType: string, boardName: string, item: Item)
    requires NamesRight(boardNames, h) && TypesRight(boardTypes, h) && ProbesRight(probePaths, h)
    ensures var h' := h + [AddBoard(path, boardType, boardName, item)];
            && NamesRight(if item.exposesType.Some? && boardName !in boardNames then boardNames[boardName := path]
                          else boardNames, h')
            && TypesRight(if IsPort(item) then boardTypes[path := boardType] else boardTypes, h')
            && ProbesRight(probePaths, h')
  {
    AfterAdd(h, path, boardType, boardName, item);
    assert Lookup(boardNames, boardName) == PathOf(h, boardName);
  }

  lemma OthersRemove(boardNames: map<string, Path>, boardTypes: map<Path, string>, probePaths: map<Path, set<Path>>,
                     h: seq<Op>, n: string)
    requires NamesRight(boardNames, h) && TypesRight(boardTypes, h) && ProbesRight(probePaths, h)
    ensures var h' := h + [Remove(n)];
            && NamesRight(boardNames - {n}, h') && TypesRight(boardTypes, h')
            && ProbesRight(if n in boardNames then probePaths - {n} else probePaths, h')
    ensures n !in boardNames ==> boardNames - {n} == boardNames
  {
    AfterRemove(h, n);
    assert Lookup(boardNames, n) == PathOf(h, n);
  }

  lemma PortsAdd(ports: map<string, Roles>, ports': map<string, Roles>, h: seq<Op>,
                 path: Path, boardType: string, boardName: string, item: Item)
    requires PortsRight(ports, h)
    requires forall q, p, r :: Has(ports', q, p, r) <==> Has(ports, q, p, r) || (p == path && (q, r) in Claims(item))
    ensures PortsRight(ports', h + [AddBoard(path, boardType, boardName, item)])
  {
    AfterAdd(h, path, boardType, boardName, item);
  }

  lemma PortsRemove(ports: map<string, Roles>, ports': map<string, Roles>, h: seq<Op>, n: string)
    requires PortsRight(ports, h)
    requires forall q, p, r :: Has(ports', q, p, r) <==> Has(ports, q, p, r) && PathOf(h, n) != Some(p)
    ensures PortsRight(ports', h + [Remove(n)])
  {
    AfterRemove(h, n);
  }

  class Topology {
    var ports: map<string, Roles>
    var boardTypes: map<Path, string>
    var boardNames: map<string, Path>
    var probePaths: map<Path, set<Path>>
    ghost var history: seq<Op>

    /** Boards on ports have a type, except those in `but`. */
    predicate Typed(but: set<Path>)
      reads this
    {
      forall port :: port in ports ==> ports[port].Keys <= boardTypes.Keys + but && PortRoles(ports[port])
    }

    /** The maps are what the history of calls says. */
    ghost predicate Valid()
      reads this
    {
      PortsRight(ports, history) && NamesRight(boardNames, history) && TypesRight(boardTypes, history)
        && ProbesRight(probePaths, history) && Typed({})
    }

    constructor ()
      ensures Valid() && history == []
    {
      ports, boardTypes, boardNames, probePaths, history := map[], map[], map[], map[], [];
    }

    /** The entry of a path on a port, empty when it is new, as the inserting operator of a map makes it. */
    method ReachEntry(port: string, path: Path)
      requires Typed({path})
      modifies this`ports
      ensures Typed({path}) && port in ports && path in ports[port]
      ensures forall q, p, r :: Has(ports, q, p, r) <==> Has(old(ports), q, p, r)
    {
      if port !in ports {
        ports := ports[port := map[]];
      }
      if path !in ports[port] {
        ports := ports[port := ports[port][path := {}]];
      }
    }

    method AddPort(port: string, path: Path, role: Role)
      requires Typed({path}) && !role.Probing? && !role.ProbedBy?
      modifies this`ports
      ensures Typed({path})
      ensures forall q, p, r :: Has(ports, q, p, r) <==>
                Has(old(ports), q, p, r) || (q == port && p == path && r == role)
    {
      ReachEntry(port, path);
      ports := ports[port := ports[port][path := ports[port][path] + {role}]];
    }

    method AddDownstreamPort(path: Path, item: Item)
      requires Typed({path}) && item.exposesType == Some("DownstreamPort")
      modifies this`ports
      ensures Typed({path})
      ensures forall q, p, r :: Has(ports, q, p, r) <==>
                Has(old(ports), q, p, r) || (p == path && (q, r) in Claims(item))
    {
      if item.connectsToType.None? {
        return;
      }
      AddPort(item.connectsToType.value, path, ContainedBy);
      if item.powerPort {
        AddPort(item.connectsToType.value, path, Powering);
      }
    }

    method AddConfiguredPort(path: Path, item: Item)
      requires Typed({path}) && item.exposesType == Some("Port")
      modifies this`ports
      ensures Typed({path})
      ensures forall q, p, r :: Has(ports, q, p, r) <==>
                Has(old(ports), q, p, r) || (p == path && (q, r) in Claims(item))
    {
      if item.name.None? {
        return;
      }
      if item.portType.None? {
        return;
      }
      var assoc := GetAssocByName(item.portType.value);
      if assoc.None? {
        return;
      }
      AddPort(item.name.value, path, assoc.value);
    }

    /** Any other type ending in "Port" is both contained-in and powered-by side of a port named so. */
    method AddUpstreamPort(port: string, path: Path, item: Item)
      requires Typed({path}) && item.exposesType == Some(port)
               && Claims(item) == {(port, Containing), (port, PoweredBy)}
      modifies this`ports
      ensures Typed({path})
      ensures forall q, p, r :: Has(ports, q, p, r) <==>
                Has(old(ports), q, p, r) || (p == path && (q, r) in Claims(item))
    {
      AddPort(port, path, Containing);
      AddPort(port, path, PoweredBy);
    }

    /** The roles a record claims are recorded on their ports. */
    method AddRoles(path: Path, item: Item) returns (isPort: bool)
      requires Typed({path}) && item.exposesType.Some?
      modifies this`ports
      ensures Typed({path}) && isPort == IsPort(item)
      ensures !isPort ==> ports == old(ports)
      ensures forall q, p, r :: Has(ports, q, p, r) <==>
                Has(old(ports), q, p, r) || (p == path && (q, r) in Claims(item))
    {
      var exposesType := item.exposesType.value;
      isPort := true;
      PortLiterals();
      if exposesType == "DownstreamPort" {
        AddDownstreamPort(path, item);
      } else if exposesType == "Port" {
        AddConfiguredPort(path, item);
      } else if EndsWithPort(exposesType) {
        AddUpstreamPort(exposesType, path, item);
      } else {
        assert Claims(item) == {};
        isPort := false;
      }
    }

    method AddBoard(path: Path, boardType: string, boardName: string, item: Item)
      requires Valid()
      modifies this
      ensures Valid() && history == old(history) + [Op.AddBoard(path, boardType, boardName, item)]
    {
      OthersAdd(boardNames, boardTypes, probePaths, history, path, boardType, boardName, item);
      history := history + [Op.AddBoard(path, boardType, boardName, item)];
      if item.exposesType.None? {
        PortsAdd(ports, ports, old(history), path, boardType, boardName, item);
        return;
      }
      if boardName !in boardNames {
        boardNames := boardNames[boardName := path];
      }
      var isPort := AddRoles(path, item);
      PortsAdd(old(ports), ports, old(history), path, boardType, boardName, item);
      if isPort {
        boardTypes := boardTypes[path := boardType];
      }
    }

    method AddProbePath(boardPath: Path, probePath: Path)
      requires Valid()
      modifies this
      ensures Valid() && history == old(history) + [Op.AddProbePath(boardPath, probePath)]
    {
      history := history + [Op.AddProbePath(boardPath, probePath)];
      assert history[..|history| - 1] == old(history);
      assert PortsRight(ports, history);
      if boardPath !in probePaths {
        probePaths := probePaths[boardPath := {}];
      }
      probePaths := probePaths[boardPath := probePaths[boardPath] + {probePath}];
    }

    /** `path` leaves every port. */
    method ErasePath(path: Path)
      requires Typed({})
      modifies this`ports
      ensures Typed({})
      ensures forall q, p, r :: Has(ports, q, p, r) <==> Has(old(ports), q, p, r) && p != path
    {
      var rest := ports.Keys;
      while rest != {}
        invariant rest <= ports.Keys && Typed({})
        invariant forall q, p, r :: Has(ports, q, p, r) <==> Has(old(ports), q, p, r) && (q in rest || p != path)
        decreases |rest|
      {
        var port :| port in rest;
        rest := rest - {port};
        HasErased(ports, port, path);
        ports := ports[port := ports[port] - {path}];
      }
    }

    method Remove(boardName: string)
      requires Valid()
      modifies this
      ensures Valid() && history == old(history) + [Op.Remove(boardName)]
    {
      OthersRemove(boardNames, boardTypes, probePaths, history, boardName);
      history := history + [Op.Remove(boardName)];
      assert Lookup(boardNames, boardName) == PathOf(old(history), boardName);
      if boardName !in boardNames {
        PortsRemove(ports, ports, old(history), boardName);
        return;
      }
      var boardPath := boardNames[boardName];
      boardNames := boardNames - {boardName};
      ErasePath(boardPath);
      PortsRemove(old(ports), ports, old(history), boardName);
      probePaths := probePaths - {boardName};
    }

    /** What the ports not in `rest` say. */
    ghost predicate Collected(rest: set<string>, boardPaths: set<Path>, u: Path, a: Association)
      reads this
    {
      exists port :: port in ports && port !in rest && Agrees(ports[port], boardTypes, boardPaths, u, a)
    }

    lemma CollectedIsLinked(boardPaths: set<Path>, u: Path, a: Association)
      requires Valid()
      ensures Collected({}, boardPaths, u, a) <==> u in boardPaths && Linked(history, u, a)
    {
      assert Lookup(boardTypes, u) == TypeOf(history, u);
      if Collected({}, boardPaths, u, a) {
        var port :| port in ports && Agrees(ports[port], boardTypes, boardPaths, u, a);
        assert Has(ports, port, u, a.role) && Has(ports, port, a.path, a.reverse);
        assert Live(history, port, u, a.role) && Live(history, port, a.path, a.reverse);
      }
      if u in boardPaths && Linked(history, u, a) {
        var port :| Live(history, port, u, a.role) && Live(history, port, a.path, a.reverse);
        assert Has(ports, port, u, a.role) && Has(ports, port, a.path, a.reverse);
        assert Agrees(ports[port], boardTypes, boardPaths, u, a);
      }
    }

    method FillPorts(boardPaths: set<Path>) returns (result: Result)
      requires Typed({})
      ensures forall u, a :: In(result, u, a) <==> Collected({}, boardPaths, u, a)
      ensures NoneEmpty(result)
    {
      result := map[];
      var rest := ports.Keys;
      while rest != {}
        invariant rest <= ports.Keys && NoneEmpty(result)
        invariant forall u, a :: In(result, u, a) <==> Collected(rest, boardPaths, u, a)
        decreases |rest|
      {
        var port :| port in rest;
        rest := rest - {port};
        result := FillAssocsForPortId(result, boardTypes, boardPaths, ports[port]);
      }
    }

    method FillProbes(boardPaths: set<Path>, result: Result) returns (result': Result)
      requires NoneEmpty(result)
      ensures forall u, a :: In(result', u, a) <==>
                (In(result, u, a)
                  || (u in boardPaths && a.role == Probing && a.reverse == ProbedBy && HasProbe(probePaths, u, a.path)))
      ensures NoneEmpty(result')
    {
      result' := result;
      var rest := probePaths.Keys;
      while rest != {}
        invariant rest <= probePaths.Keys && NoneEmpty(result')
        invariant forall u, a :: In(result', u, a) <==>
                    (In(result, u, a)
                      || (u !in rest && u in boardPaths && a.role == Probing && a.reverse == ProbedBy
                         && HasProbe(probePaths, u, a.path)))
        decreases |rest|
      {
        var boardPath :| boardPath in rest;
        rest := rest - {boardPath};
        if boardPath in boardPaths {
          result' := FillProbesOf(boardPath, result');
        }
      }
    }

    method FillProbesOf(boardPath: Path, result: Result) returns (result': Result)
      requires NoneEmpty(result) && boardPath in probePaths
      ensures forall u, a :: In(result', u, a) <==>
                (In(result, u, a)
                  || (u == boardPath && a.role == Probing && a.reverse == ProbedBy && HasProbe(probePaths, u, a.path)))
      ensures NoneEmpty(result')
    {
      result' := result;
      var rest := probePaths[boardPath];
      while rest != {}
        invariant rest <= probePaths[boardPath] && NoneEmpty(result')
        invariant forall u, a :: In(result', u, a) <==>
                    (In(result, u, a)
                      || (u == boardPath && a.role == Probing && a.reverse == ProbedBy
                         && HasProbe(probePaths, u, a.path) && a.path !in rest))
        decreases |rest|
      {
        var path :| path in rest;
        rest := rest - {path};
        result' := Put(result', boardPath, Association(Probing, ProbedBy, path));
      }
    }

    /** The associations of the boards at `boardPaths`. */
    method GetAssocs(boardPaths: set<Path>) returns (result: Result)
      requires Valid()
      ensures forall u, a :: In(result, u, a) <==> Associated(history, boardPaths, u, a)
      ensures NoneEmpty(result)
      ensures forall u, a :: In(result, u, a) && a.role != Probing ==>
                !In(result, a.path, Association(a.reverse, a.role, u))
    {
      var linked := FillPorts(boardPaths);
      result := FillProbes(boardPaths, linked);
      forall u, a ensures In(linked, u, a) <==> u in boardPaths && Linked(history, u, a) {
        CollectedIsLinked(boardPaths, u, a);
      }
      forall u, a | In(result, u, a)
        && a.role != Probing ensures !In(result, a.path, Association(a.reverse, a.role, u)) {
        OneEnd(history, u, a);
      }
    }
  }

  /** A board is added, probed, and removed: its probing association is still reported. */
  method ProbingOutlivesBoard(path: Path, boardType: string, name: string, item: Item, probe: Path)
    returns (result: Result)
    requires item.exposesType.Some?
    ensures result == if name == path then map[] else map[path := {Association(Probing, ProbedBy, probe)}]
  {
    var topology := new Topology();
    topology.AddBoard(path, boardType, name, item);
    topology.AddProbePath(path, probe);
    topology.Remove(name);
    ghost var history := topology.history;
    assert history == [AddBoard(path, boardType, name, item), AddProbePath(path, probe), Remove(name)];
    result := topology.GetAssocs({path});
    RemovedBoard(path, boardType, name, item, probe);
    forall u | u in result ensures u == path && name != path {
      var a :| a in result[u];
      assert In(result, u, a);
    }
    var probing := Association(Probing, ProbedBy, probe);
    if name == path {
      assert result == map[];
    } else {
      assert In(result, path, probing);
      forall a ensures a in result[path] <==> a == probing {
        assert a in result[path] <==> In(result, path, a);
      }
      assert result[path] == {probing} && result.Keys == {path};
    }
  }

  /** What the history of those calls describes. */
  lemma RemovedBoard(path: Path, boardType: string, name: string, item: Item, probe: Path)
    requires item.exposesType.Some?
    ensures var history := [AddBoard(path, boardType, name, item), AddProbePath(path, probe), Remove(name)];
            forall u, a :: Associated(history, {path}, u, a) <==>
              u == path && name != path && a == Association(Probing, ProbedBy, probe)
  {
    var none: seq<Op> := [];
    var one := none + [AddBoard(path, boardType, name, item)];
    var two := one + [AddProbePath(path, probe)];
    AfterAdd(none, path, boardType, name, item);
    AfterProbe(one, path, probe);
    AfterRemove(two, name);
    assert two + [Remove(name)] == [AddBoard(path, boardType, name, item), AddProbePath(path, probe), Remove(name)];
  }
}
