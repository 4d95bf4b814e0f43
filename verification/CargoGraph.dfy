/** The dependency closure over `cargo metadata`: a worklist over the resolve graph. */
module CargoGraph {
  import opened Wrappers

  type Id = string

  datatype Package = Package(name: string, id: Id)

  /** An edge with the kinds it was declared as; the normal kind is `None`. */
  datatype Dep = Dep(pkg: Id, kinds: seq<Option<string>>)

  datatype Node = Node(id: Id, dependencies: seq<Id>, deps: seq<Dep>)

  datatype Metadata = Metadata(packages: seq<Package>, nodes: seq<Node>)

  /** The first package of a name, as `setdefault` keeps it. */
  function ByName(packages: seq<Package>, name: string): (r: Option<Id>)
    ensures r == None <==> forall i | 0 <= i < |packages| :: packages[i].name != name
  {
    if packages == [] then None
    else if packages[0].name == name then Some(packages[0].id)
    else ByName(packages[1..], name)
  }

  /** The last node of an id, as a dictionary keeps it. */
  function NodeOf(nodes: seq<Node>, id: Id): (r: Option<Node>)
    ensures r.Some? ==> r.value in nodes && r.value.id == id
  {
    if nodes == [] then None
    else if nodes[|nodes| - 1].id == id then Some(nodes[|nodes| - 1])
    else NodeOf(nodes[..|nodes| - 1], id)
  }

  predicate Links(d: Dep) {
    exists i | 0 <= i < |d.kinds| :: d.kinds[i] != Some("dev")
  }

  function Linked(deps: seq<Dep>): (r: seq<Id>)
  {
    if deps == [] then [] else (if Links(deps[0]) then [deps[0].pkg] else []) + Linked(deps[1..])
  }

  function Out(node: Node, dev: bool): seq<Id> {
    if dev then node.dependencies else Linked(node.deps)
  }

  /** The edges the closure follows from `id`: all of them, or those that are not only for
      development. */
  function Next(meta: Metadata, dev: bool, id: Id): seq<Id> {
    match NodeOf(meta.nodes, id)
    case None => []
    case Some(node) => Out(node, dev)
  }

  /** Some kind it was declared as is not a development one. */
  ghost predicate NotOnlyDev(d: Dep) {
    exists i | 0 <= i < |d.kinds| :: d.kinds[i] != Some("dev")
  }

  /** Without `dev` an edge is followed exactly when some kind of it is not a development one. */
  lemma {:induction false} LinkedIs(deps: seq<Dep>, id: Id)
    ensures id in Linked(deps) <==> exists i | 0 <= i < |deps| :: deps[i].pkg == id && NotOnlyDev(deps[i])
  {
    if deps != [] {
      LinkedIs(deps[1..], id);
      var first := if Links(deps[0]) then [deps[0].pkg] else [];
      assert Linked(deps) == first + Linked(deps[1..]);
      if id in Linked(deps[1..]) {
        var i :| 0 <= i < |deps[1..]| && deps[1..][i].pkg == id && NotOnlyDev(deps[1..][i]);
        assert deps[i + 1].pkg == id && NotOnlyDev(deps[i + 1]);
      }
      if i :| 0 <= i < |deps| && deps[i].pkg == id && NotOnlyDev(deps[i]) {
        if i > 0 {
          assert deps[1..][i - 1] == deps[i];
        }
      }
    }
  }

  /** The last node listed for `id`. */
  ghost predicate LastAt(nodes: seq<Node>, id: Id, n: nat) {
    n < |nodes| && nodes[n].id == id && forall m | n < m < |nodes| :: nodes[m].id != id
  }

  lemma {:induction false} NodeOfIsLast(nodes: seq<Node>, id: Id) returns (n: nat)
    ensures NodeOf(nodes, id) == None ==> forall i | 0 <= i < |nodes| :: nodes[i].id != id
    ensures NodeOf(nodes, id).Some? ==> LastAt(nodes, id, n) && nodes[n] == NodeOf(nodes, id).value
  {
    n := 0;
    if nodes != [] {
      var last := |nodes| - 1;
      if nodes[last].id == id {
        n := last;
      } else {
        n := NodeOfIsLast(nodes[..last], id);
        assert forall i | 0 <= i < last :: nodes[i] == nodes[..last][i];
      }
    }
  }

  /** A dependency the closure follows: any with `dev`, and without it one not for development only. */
  ghost predicate EdgeFrom(node: Node, dev: bool, to: Id) {
    if dev then to in node.dependencies
    else exists i | 0 <= i < |node.deps| :: node.deps[i].pkg == to && NotOnlyDev(node.deps[i])
  }

  ghost predicate Edge(meta: Metadata, dev: bool, id: Id, to: Id) {
    exists n: nat :: LastAt(meta.nodes, id, n) && EdgeFrom(meta.nodes[n], dev, to)
  }

  lemma {:induction false} OutIsEdge(node: Node, dev: bool, to: Id)
    ensures to in Out(node, dev) <==> EdgeFrom(node, dev, to)
  {
    LinkedIs(node.deps, to);
  }

  lemma {:induction false} NextIsEdge(meta: Metadata, dev: bool, id: Id, to: Id)
    ensures to in Next(meta, dev, id) <==> Edge(meta, dev, id, to)
  {
    var n := NodeOfIsLast(meta.nodes, id);
    if NodeOf(meta.nodes, id).Some? {
      OutIsEdge(meta.nodes[n], dev, to);
      if m: nat :| LastAt(meta.nodes, id, m) && EdgeFrom(meta.nodes[m], dev, to) {
        assert m == n;
      }
    }
  }

  /** The first package of a name gives its id. */
  lemma {:induction false} ByNameIsFirst(packages: seq<Package>, name: string)
    ensures match ByName(packages, name)
            case None => forall i | 0 <= i < |packages| :: packages[i].name != name
            case Some(id) =>
              exists i | 0 <= i < |packages| ::
                packages[i] == Package(name, id) && forall j | 0 <= j < i :: packages[j].name != name
  {
    if packages != [] && packages[0].name != name {
      ByNameIsFirst(packages[1..], name);
      if ByName(packages, name).Some? {
        var id := ByName(packages, name).value;
        var i :| 0 <= i < |packages[1..]| && packages[1..][i] == Package(name, id)
          && forall j | 0 <= j < i :: packages[1..][j].name != name;
        assert packages[i + 1] == Package(name, id);
        assert forall j | 0 < j < i + 1 :: packages[j] == packages[1..][j - 1];
      }
    } else if packages != [] {
      assert packages[0] == Package(name, packages[0].id);
    }
  }

  // ---- Reachability

  /** A walk along followed edges, from one of `roots`. */
  ghost predicate Path(meta: Metadata, dev: bool, roots: seq<Id>, path: seq<Id>) {
    && path != [] && path[0] in roots
    && forall i | 0 < i < |path| :: path[i] in Next(meta, dev, path[i - 1])
  }

  ghost predicate Reached(meta: Metadata, dev: bool, roots: seq<Id>, id: Id) {
    exists path :: Path(meta, dev, roots, path) && path[|path| - 1] == id
  }

  lemma {:induction false} RootReached(meta: Metadata, dev: bool, roots: seq<Id>, id: Id)
    requires id in roots
    ensures Reached(meta, dev, roots, id)
  {
    assert Path(meta, dev, roots, [id]) && [id][|[id]| - 1] == id;
  }

  lemma {:induction false} StepReached(meta: Metadata, dev: bool, roots: seq<Id>, id: Id, to: Id)
    requires Reached(meta, dev, roots, id) && to in Next(meta, dev, id)
    ensures Reached(meta, dev, roots, to)
  {
    var path :| Path(meta, dev, roots, path) && path[|path| - 1] == id;
    var more := path + [to];
    forall i | 0 < i < |more|
      ensures more[i] in Next(meta, dev, more[i - 1])
    {
      assert more[i - 1] == path[i - 1] && (i < |path| ==> more[i] == path[i]);
    }
    assert Path(meta, dev, roots, more) && more[|more| - 1] == to;
  }

  /** A set that holds the roots and every followed edge's end holds every walk's end. */
  lemma {:induction false} ClosedHolds(meta: Metadata, dev: bool, roots: seq<Id>, seen: set<Id>, path: seq<Id>)
    requires forall r | r in roots :: r in seen
    requires forall id, to | id in seen && to in Next(meta, dev, id) :: to in seen
    requires Path(meta, dev, roots, path)
    ensures path[|path| - 1] in seen
    decreases |path|
  {
    if |path| > 1 {
      var front := path[..|path| - 1];
      forall i | 0 < i < |front|
        ensures front[i] in Next(meta, dev, front[i - 1])
      {
        assert front[i - 1] == path[i - 1] && front[i] == path[i];
      }
      ClosedHolds(meta, dev, roots, seen, front);
    }
  }

  /** A walk along edges, stated on the nodes as they are listed. */
  ghost predicate EdgePath(meta: Metadata, dev: bool, roots: seq<Id>, path: seq<Id>) {
    && path != [] && path[0] in roots
    && forall i | 0 < i < |path| :: Edge(meta, dev, path[i - 1], path[i])
  }

  ghost predicate Reachable(meta: Metadata, dev: bool, roots: seq<Id>, id: Id) {
    exists path :: EdgePath(meta, dev, roots, path) && path[|path| - 1] == id
  }

  lemma {:induction false} PathIsEdgePath(meta: Metadata, dev: bool, roots: seq<Id>, path: seq<Id>)
    ensures Path(meta, dev, roots, path) <==> EdgePath(meta, dev, roots, path)
  {
    forall i | 0 < i < |path|
      ensures path[i] in Next(meta, dev, path[i - 1]) <==> Edge(meta, dev, path[i - 1], path[i])
    {
      NextIsEdge(meta, dev, path[i - 1], path[i]);
    }
  }

  lemma {:induction false} ReachedIsReachable(meta: Metadata, dev: bool, roots: seq<Id>, id: Id)
    ensures Reached(meta, dev, roots, id) <==> Reachable(meta, dev, roots, id)
  {
    if path :| Path(meta, dev, roots, path) && path[|path| - 1] == id {
      PathIsEdgePath(meta, dev, roots, path);
    }
    if path :| EdgePath(meta, dev, roots, path) && path[|path| - 1] == id {
      PathIsEdgePath(meta, dev, roots, path);
    }
  }

  // ---- Every id the walk can meet, for termination

  function Ends(meta: Metadata, dev: bool, nodes: seq<Node>): set<Id> {
    set n, id | n in nodes && id in Out(n, dev) :: id
  }

  lemma {:induction false} NextEnds(meta: Metadata, dev: bool, id: Id, to: Id)
    requires to in Next(meta, dev, id)
    ensures to in Ends(meta, dev, meta.nodes)
  {
    var node := NodeOf(meta.nodes, id).value;
    assert node in meta.nodes;
  }

  /** The ids of the named roots, or the first name nobody has. */
  function RootIds(meta: Metadata, roots: seq<string>): Result<seq<Id>, string> {
    if roots == [] then Ok([])
    else
      match ByName(meta.packages, roots[0])
      case None => Err(roots[0])
      case Some(id) =>
        match RootIds(meta, roots[1..])
        case Err(e) => Err(e)
        case Ok(rest) => Ok([id] + rest)
  }

  method Roots(meta: Metadata, roots: seq<string>) returns (r: Result<seq<Id>, string>)
    ensures r == RootIds(meta, roots)
  {
    var stack: seq<Id> := [];
    assert roots[0..] == roots;
    ExtendTwice([], [], RootIds(meta, roots));
    for i := 0 to |roots|
      invariant RootIds(meta, roots) == Extend(stack, RootIds(meta, roots[i..]))
    {
      var id := ByName(meta.packages, roots[i]);
      assert roots[i..][0] == roots[i] && roots[i..][1..] == roots[i + 1..];
      if id == None {
        return Err(roots[i]);
      }
      ExtendTwice(stack, [id.value], RootIds(meta, roots[i + 1..]));
      stack := stack + [id.value];
    }
    assert stack + [] == stack;
    r := Ok(stack);
  }

  ghost function Members(s: seq<Id>): set<Id> {
    set id | id in s
  }

  lemma {:induction false} MembersPop(stack: seq<Id>, more: seq<Id>)
    requires stack != []
    ensures var pid, rest := stack[|stack| - 1], stack[..|stack| - 1];
            Members(stack) == Members(rest) + {pid} && Members(rest + more) == Members(rest) + Members(more)
  {
    assert stack == stack[..|stack| - 1] + [stack[|stack| - 1]];
  }

  /** What is seen or waits is reachable; the roots and the ends of every edge followed so far are
      seen or wait. */
  ghost predicate Working(meta: Metadata, dev: bool, ids: seq<Id>, all: set<Id>, seen: set<Id>, waiting: set<Id>) {
    && (forall id | id in seen + waiting :: id in all && Reached(meta, dev, ids, id))
    && (forall id | id in ids :: id in seen + waiting)
    && (forall id | id in seen :: Members(Next(meta, dev, id)) <= seen + waiting)
    && Ends(meta, dev, meta.nodes) <= all
  }

  /** A waiting id already seen can go. */
  lemma {:induction false} PopsSeen(meta: Metadata, dev: bool, ids: seq<Id>, all: set<Id>, seen: set<Id>, pid: Id,
                                    rest: set<Id>)
    requires Working(meta, dev, ids, all, seen, rest + {pid}) && pid in seen
    ensures Working(meta, dev, ids, all, seen, rest)
  {
    assert seen + (rest + {pid}) == seen + rest;
  }

  lemma {:induction false} NextReached(meta: Metadata, dev: bool, ids: seq<Id>, all: set<Id>, pid: Id)
    requires Reached(meta, dev, ids, pid) && Ends(meta, dev, meta.nodes) <= all
    ensures forall to | to in Members(Next(meta, dev, pid)) :: to in all && Reached(meta, dev, ids, to)
  {
    forall to | to in Members(Next(meta, dev, pid))
      ensures to in all && Reached(meta, dev, ids, to)
    {
      NextEnds(meta, dev, pid, to);
      StepReached(meta, dev, ids, pid, to);
    }
  }

  /** A waiting id is seen, and the ends of its edges wait instead. */
  lemma {:induction false} PopsNew(meta: Metadata, dev: bool, ids: seq<Id>, all: set<Id>, seen: set<Id>, pid: Id,
                                   rest: set<Id>)
    requires Working(meta, dev, ids, all, seen, rest + {pid})
    ensures Working(meta, dev, ids, all, seen + {pid}, rest + Members(Next(meta, dev, pid)))
  {
    var next := Members(Next(meta, dev, pid));
    var was, now := seen + (rest + {pid}), seen + {pid} + (rest + next);
    assert pid in was;
    NextReached(meta, dev, ids, all, pid);
    assert now == was + next;
    forall id | id in seen + {pid}
      ensures Members(Next(meta, dev, id)) <= now
    {
      assert id in seen ==> Members(Next(meta, dev, id)) <= was;
    }
  }

  lemma {:induction false} Begun(meta: Metadata, dev: bool, ids: seq<Id>)
    ensures Working(meta, dev, ids, Members(ids) + Ends(meta, dev, meta.nodes), {}, Members(ids))
  {
    forall id | id in ids
      ensures Reached(meta, dev, ids, id)
    {
      RootReached(meta, dev, ids, id);
    }
  }

  /** Once nothing waits, what was seen is exactly what is reachable. */
  lemma {:induction false} Done(meta: Metadata, dev: bool, ids: seq<Id>, all: set<Id>, seen: set<Id>, id: Id)
    requires Working(meta, dev, ids, all, seen, {})
    ensures id in seen <==> Reached(meta, dev, ids, id)
  {
    assert seen + {} == seen;
    forall from, to | from in seen && to in Next(meta, dev, from)
      ensures to in seen
    {
      assert to in Members(Next(meta, dev, from));
    }
    if Reached(meta, dev, ids, id) {
      var path :| Path(meta, dev, ids, path) && path[|path| - 1] == id;
      ClosedHolds(meta, dev, ids, seen, path);
    }
  }

  lemma {:induction false} Smaller(a: set<Id>, b: set<Id>, x: Id)
    requires a <= b && x in b && x !in a
    ensures |a| < |b|
  {
    SubsetSize(a, b - {x});
  }

  lemma {:induction false} SubsetSize(a: set<Id>, b: set<Id>)
    requires a <= b
    ensures |a| <= |b|
  {
    if x :| x in a {
      SubsetSize(a - {x}, b - {x});
    }
  }

  lemma {:induction false} RootsNamed(meta: Metadata, roots: seq<string>)
    ensures RootIds(meta, roots).Err? <==> exists i | 0 <= i < |roots| :: ByName(meta.packages, roots[i]) == None
  {
    if roots != [] {
      RootsNamed(meta, roots[1..]);
      if ByName(meta.packages, roots[0]).Some? {
        if i :| 0 <= i < |roots| && ByName(meta.packages, roots[i]) == None {
          assert roots[1..][i - 1] == roots[i];
        }
        if i :| 0 <= i < |roots[1..]| && ByName(meta.packages, roots[1..][i]) == None {
          assert roots[i + 1] == roots[1..][i];
        }
      }
    }
  }

  /** The worklist: it ends, and leaves exactly what is reachable from `ids`. */
  method Walk(meta: Metadata, ids: seq<Id>, dev: bool) returns (seen: set<Id>)
    ensures forall id :: id in seen <==> Reached(meta, dev, ids, id)
  {
    ghost var all := Members(ids) + Ends(meta, dev, meta.nodes);
    var stack := ids;
    seen := {};
    Begun(meta, dev, ids);
    while stack != []
      invariant Working(meta, dev, ids, all, seen, Members(stack))
      decreases |all - seen|, |stack|
    {
      var pid := stack[|stack| - 1];
      MembersPop(stack, Next(meta, dev, pid));
      ghost var rest := Members(stack[..|stack| - 1]);
      stack := stack[..|stack| - 1];
      if pid in seen {
        PopsSeen(meta, dev, ids, all, seen, pid, rest);
      } else {
        PopsNew(meta, dev, ids, all, seen, pid, rest);
        FewerUnseen(all, seen, pid);
        seen := seen + {pid};
        stack := stack + Next(meta, dev, pid);
      }
    }
    forall id
      ensures id in seen <==> Reached(meta, dev, ids, id)
    {
      Done(meta, dev, ids, all, seen, id);
    }
  }

  lemma {:induction false} FewerUnseen(all: set<Id>, seen: set<Id>, pid: Id)
    requires pid in all && pid !in seen
    ensures |all - (seen + {pid})| < |all - seen|
  {
    Smaller(all - (seen + {pid}), all - seen, pid);
  }

  /** The ids the closure starts from: of each root the first package of that name. */
  lemma {:induction false} RootIdsAre(meta: Metadata, roots: seq<string>)
    requires RootIds(meta, roots).Ok?
    ensures |RootIds(meta, roots).value| == |roots|
    ensures forall i | 0 <= i < |roots| :: ByName(meta.packages, roots[i]) == Some(RootIds(meta, roots).value[i])
  {
    if roots != [] {
      RootIdsAre(meta, roots[1..]);
    }
  }

  /** The closure fails on a root nobody is named, and otherwise gives exactly the ids reachable from
      the roots over the edges kept. */
  method Closure(meta: Metadata, roots: seq<string>, dev: bool) returns (r: Result<set<Id>, string>)
    ensures r.Err? <==> exists i | 0 <= i < |roots| :: ByName(meta.packages, roots[i]) == None
    ensures r.Err? ==> RootIds(meta, roots) == Err(r.error)
    ensures r.Ok? ==>
              && RootIds(meta, roots).Ok?
              && forall id :: id in r.value <==> Reachable(meta, dev, RootIds(meta, roots).value, id)
  {
    var found := Roots(meta, roots);
    RootsNamed(meta, roots);
    if found.Err? {
      return Err(found.error);
    }
    var seen := Walk(meta, found.value, dev);
    forall id
      ensures Reached(meta, dev, found.value, id) <==> Reachable(meta, dev, found.value, id)
    {
      ReachedIsReachable(meta, dev, found.value, id);
    }
    r := Ok(seen);
  }
}
