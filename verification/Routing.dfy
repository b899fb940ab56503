/** Hop-by-hop routing of control commands and receipts over the process tree
    (src/control.c). A node is named by its path: the slot ids from the root down. Every node
    decides from its own path and the command alone. */
module Routing {
  type Path = seq<int>

  const SELF_PATH_MAX := 8
  const ROOT_ID := 1
  const PAYLOAD_MAX := 65536

  /** A well-formed process tree: every node's parent exists, child slots are above 1 (0 and 1
      mean "up"), and no path is longer than a node can store. */
  ghost predicate Tree(nodes: set<Path>) {
    && [] in nodes
    && forall p :: p in nodes && p != [] ==> Parent(p) in nodes && Slot(p) > 1 && |p| <= SELF_PATH_MAX
  }

  function Parent(p: Path): Path
    requires p != []
  {
    p[..|p| - 1]
  }

  function Slot(p: Path): int
    requires p != []
  {
    p[|p| - 1]
  }

  /** The id under which a node is known on its own channel. */
  function LocalId(self: Path): int {
    if self == [] then ROOT_ID else Slot(self)
  }

  // ---------------------------------------------------------------- the path of a command

  /** An element of the JSON array `target_path`. */
  datatype Element = Number(value: int) | Other

  function Numbers(elements: seq<Element>): Path {
    if elements == [] then [] else (if elements[0].Number? then [elements[0].value] else []) + Numbers(elements[1..])
  }

  lemma {:induction false} NumbersSnoc(elements: seq<Element>, e: Element)
    ensures Numbers(elements + [e]) == Numbers(elements) + if e.Number? then [e.value] else []
  {
    if elements == [] {
      assert Numbers([e][1..]) == [];
    } else {
      NumbersSnoc(elements[1..], e);
      assert (elements + [e])[1..] == elements[1..] + [e];
    }
  }

  lemma {:induction false} NumbersPrefix(elements: seq<Element>, k: nat)
    requires k <= |elements|
    ensures Numbers(elements[..k]) <= Numbers(elements)
    decreases |elements| - k
  {
    if k == |elements| {
      assert elements[..k] == elements;
    } else {
      NumbersPrefix(elements, k + 1);
      assert elements[..k + 1] == elements[..k] + [elements[k]];
      NumbersSnoc(elements[..k], elements[k]);
    }
  }

  function Cut(path: Path): Path {
    if |path| <= SELF_PATH_MAX then path else path[..SELF_PATH_MAX]
  }

  /** The path by which a command travels: none if its text is too long, and never more
      elements than a node's own path can have. A command without one is addressed relatively. */
  function Extracted(elements: seq<Element>, size: nat): Path {
    if size == 0 || size > PAYLOAD_MAX then [] else Cut(Numbers(elements))
  }

  /** The loop of `ctl_extract_path`. */
  method ExtractPath(elements: seq<Element>, size: nat) returns (p: Path)
    ensures p == Extracted(elements, size)
  {
    p := [];
    if size == 0 || size > PAYLOAD_MAX {
      return;
    }
    var i := 0;
    while i < |elements| && |p| < SELF_PATH_MAX
      invariant i <= |elements| && |p| <= SELF_PATH_MAX && p == Numbers(elements[..i])
    {
      NumbersSnoc(elements[..i], elements[i]);
      assert elements[..i + 1] == elements[..i] + [elements[i]];
      if elements[i].Number? {
        p := p + [elements[i].value];
      }
      i := i + 1;
    }
    NumbersPrefix(elements, i);
    assert elements[..|elements|] == elements;
  }

  // ---------------------------------------------------------------- one hop

  datatype Hop = Here | Up | Down(slot: int)

  /** The decision of a node: it is the destination, or a strict ancestor of it, or neither. */
  function Decide(self: Path, p: Path): Hop {
    if self <= p then (if |self| == |p| then Here else Down(p[|self|])) else Up
  }

  /** The comparison loop of `qz_control_route`. */
  method RouteByPath(self: Path, p: Path) returns (hop: Hop)
    ensures hop == Decide(self, p)
  {
    var d := |self|;
    var onPath, i := d <= |p|, 0;
    while onPath && i < d
      invariant 0 <= i <= d && (onPath ==> d <= |p|)
      invariant onPath ==> self[..i] == p[..i]
      invariant !onPath ==> !(self <= p)
    {
      if self[i] != p[i] {
        onPath := false;
      }
      i := i + 1;
    }
    if onPath && d == |p| {
      return Here;
    }
    hop := if onPath then Down(p[d]) else Up;
  }

  /** Where a command is: at a node, executed, dropped, or gone to the host above the root. */
  datatype Where = At(node: Path) | Executed(node: Path) | Dropped(node: Path) | AtHost

  /** `ctl_forward`: a slot above 1 is looked up among the children; anything else goes up. */
  function Forward(nodes: set<Path>, self: Path, slot: int): Where {
    if slot > 1 then (if self + [slot] in nodes then At(self + [slot]) else Dropped(self))
    else if self == [] then AtHost
    else At(Parent(self))
  }

  /** One node runs `qz_control_route`. */
  function Step(nodes: set<Path>, w: Where, p: Path): Where {
    match w
    case At(self) =>
      (match Decide(self, p)
       case Here => Executed(self)
       case Up => Forward(nodes, self, 1)
       case Down(s) => Forward(nodes, self, s))
    case _ => w
  }

  /** After `n` hops. */
  function After(nodes: set<Path>, w: Where, p: Path, n: nat): Where {
    if n == 0 then w else Step(nodes, After(nodes, w, p, n - 1), p)
  }

  ghost predicate Ends(nodes: set<Path>, w: Where, p: Path, end: Where) {
    exists n :: After(nodes, w, p, n) == end
  }

  /** The command is forwarded for ever. */
  ghost predicate Circulates(nodes: set<Path>, w: Where, p: Path) {
    forall n :: After(nodes, w, p, n).At?
  }

  // ---------------------------------------------------------------- distance in the tree

  /** Length of the longest common prefix: the depth of the lowest common ancestor. */
  function Common(a: Path, b: Path): (n: nat)
    ensures n <= |a| && n <= |b| && a[..n] == b[..n]
    ensures n < |a| && n < |b| ==> a[n] != b[n]
  {
    if a == [] || b == [] || a[0] != b[0] then 0 else
    var n := 1 + Common(a[1..], b[1..]);
    assert a[..n] == [a[0]] + a[1..][..n - 1] && b[..n] == [b[0]] + b[1..][..n - 1];
    n
  }

  function Distance(a: Path, b: Path): nat {
    |a| - Common(a, b) + (|b| - Common(a, b))
  }

  lemma CommonIs(a: Path, b: Path, n: nat)
    requires n <= |a| && n <= |b| && a[..n] == b[..n]
    requires n < |a| && n < |b| ==> a[n] != b[n]
    ensures Common(a, b) == n
  {
    var m := Common(a, b);
    if m < n {
      AgreeAt(a, b, n, m);
    } else if n < m {
      AgreeAt(a, b, m, n);
    }
  }

  lemma AgreeAt(a: Path, b: Path, n: nat, k: nat)
    requires k < n <= |a| && n <= |b| && a[..n] == b[..n]
    ensures a[k] == b[k]
  {
    assert a[..n][k] == b[..n][k];
  }

  lemma OnPathIffCommon(self: Path, p: Path)
    ensures self <= p <==> Common(self, p) == |self|
  {
    if self <= p {
      CommonIs(self, p, |self|);
    }
  }

  /** Going up from a node off the path keeps the common ancestor. */
  lemma UpKeepsCommon(self: Path, p: Path)
    requires !(self <= p)
    ensures self != [] && Common(Parent(self), p) == Common(self, p) < |self|
  {
    OnPathIffCommon(self, p);
    var n := Common(self, p);
    assert Parent(self)[..n] == self[..n];
    CommonIs(Parent(self), p, n);
  }

  /** Going down on the path makes it one longer. */
  lemma DownGrowsCommon(self: Path, p: Path)
    requires self < p
    ensures Common(self, p) == |self| && self + [p[|self|]] <= p && Common(self + [p[|self|]], p) == |self| + 1
  {
    OnPathIffCommon(self, p);
    OnPathIffCommon(self + [p[|self|]], p);
  }

  /** The node is on the way to `p`, and the next element sends the command back up. */
  predicate TurnsBack(self: Path, p: Path) {
    self < p && p[|self|] <= 1
  }

  /** Each hop brings the command one edge closer to the place it names, unless the next
      element is 1 or less: then, and only then, it goes one edge further away. */
  lemma HopCloserIff(nodes: set<Path>, self: Path, p: Path)
    requires Step(nodes, At(self), p).At?
    ensures Distance(Step(nodes, At(self), p).node, p) == Distance(self, p) + if TurnsBack(self, p) then 1 else -1
  {
    if !(self <= p) {
      UpKeepsCommon(self, p);
    } else if TurnsBack(self, p) {
      OnPathIffCommon(self, p);
      OnPathIffCommon(Parent(self), p);
    } else {
      DownGrowsCommon(self, p);
    }
  }

  // ---------------------------------------------------------------- whole routes

  /** The k-th place on the way from `self` to `q`: up to the common ancestor, then down. */
  function Waypoint(self: Path, q: Path, k: nat): Path
    requires k <= Distance(self, q)
  {
    var c := Common(self, q);
    if k <= |self| - c then self[..|self| - k] else q[..c + (k - (|self| - c))]
  }

  lemma {:induction false} TreeHasPrefixes(nodes: set<Path>, p: Path, k: nat)
    requires Tree(nodes) && p in nodes && k <= |p|
    ensures p[..k] in nodes && (k > 0 ==> p[k - 1] > 1)
    decreases |p| - k
  {
    if k == |p| {
      assert p[..k] == p;
      assert k > 0 ==> Slot(p) > 1;
    } else {
      TreeHasPrefixes(nodes, p, k + 1);
      assert Parent(p[..k + 1]) == p[..k];
      assert k > 0 ==> Slot(p[..k]) == p[k - 1];
    }
  }

  /** `q` is the deepest node on the way to `p`: `p` itself when it exists. */
  ghost predicate Deepest(nodes: set<Path>, p: Path, q: Path) {
    q in nodes && q <= p && (q == p || q + [p[|q|]] !in nodes)
  }

  function Anchor(nodes: set<Path>, p: Path): (q: Path)
    requires [] in nodes
    ensures Deepest(nodes, p, q)
    decreases |p|
  {
    if p in nodes then p else
    var q := Anchor(nodes, Parent(p));
    assert q != Parent(p) ==> Parent(p)[|q|] == p[|q|];
    assert q == Parent(p) ==> q + [p[|q|]] == p;
    q
  }

  lemma ChildOnWay(nodes: set<Path>, p: Path, q: Path, w: Path)
    requires Tree(nodes) && w in nodes && w <= p && q <= p && |q| < |w|
    ensures q + [p[|q|]] in nodes
  {
    TreeHasPrefixes(nodes, w, |q| + 1);
    assert w[..|q| + 1] == q + [p[|q|]];
  }

  /** No node on the way to `p` is deeper. */
  lemma NoneDeeper(nodes: set<Path>, p: Path, q: Path, w: Path)
    requires Tree(nodes) && Deepest(nodes, p, q) && w in nodes && w <= p
    ensures w <= q
  {
    assert w == p[..|w|] && q == p[..|q|];
    if |q| < |w| {
      ChildOnWay(nodes, p, q, w);
    }
  }

  lemma BelowAncestor(self: Path, q: Path, n: nat)
    requires Common(self, q) < n <= |self|
    ensures !(self[..n] <= q)
  {
    var c := Common(self, q);
    assert self[..n][c] == self[c];
  }

  lemma OffTheWay(nodes: set<Path>, self: Path, p: Path, q: Path, n: nat)
    requires Tree(nodes) && Deepest(nodes, p, q) && Common(self, q) < n <= |self| && self[..n] in nodes
    ensures !(self[..n] <= p)
  {
    BelowAncestor(self, q, n);
    if self[..n] <= p {
      NoneDeeper(nodes, p, q, self[..n]);
    }
  }

  lemma HopUp(nodes: set<Path>, self: Path, p: Path, q: Path, n: nat)
    requires Tree(nodes) && self in nodes && Deepest(nodes, p, q) && Common(self, q) < n <= |self|
    ensures Step(nodes, At(self[..n]), p) == At(self[..n - 1])
  {
    TreeHasPrefixes(nodes, self, n);
    OffTheWay(nodes, self, p, q, n);
    assert Parent(self[..n]) == self[..n - 1];
  }

  lemma HopDown(nodes: set<Path>, p: Path, q: Path, n: nat)
    requires Tree(nodes) && Deepest(nodes, p, q) && n < |q|
    ensures Step(nodes, At(q[..n]), p) == At(q[..n + 1])
  {
    TreeHasPrefixes(nodes, q, n + 1);
    assert q[..n] + [q[n]] == q[..n + 1] && p[n] == q[n];
    assert Decide(q[..n], p) == Down(q[n]);
  }

  lemma OneHop(nodes: set<Path>, self: Path, p: Path, q: Path, k: nat)
    requires Tree(nodes) && self in nodes && Deepest(nodes, p, q) && k < Distance(self, q)
    ensures Step(nodes, At(Waypoint(self, q, k)), p) == At(Waypoint(self, q, k + 1))
  {
    var c := Common(self, q);
    if k < |self| - c {
      HopUp(nodes, self, p, q, |self| - k);
    } else {
      HopDown(nodes, p, q, c + (k - (|self| - c)));
      assert self[..c] == q[..c];
    }
  }

  /** A command takes the shortest way to the deepest node that its path names: up to the
      lowest common ancestor, then down. */
  lemma {:induction false} WayTo(nodes: set<Path>, self: Path, p: Path, q: Path, k: nat)
    requires Tree(nodes) && self in nodes && Deepest(nodes, p, q) && k <= Distance(self, q)
    ensures After(nodes, At(self), p, k) == At(Waypoint(self, q, k))
  {
    if k == 0 {
      WayStarts(self, q);
    } else {
      WayTo(nodes, self, p, q, k - 1);
      OneHop(nodes, self, p, q, k - 1);
      OneMore(nodes, At(self), p, k - 1, At(Waypoint(self, q, k - 1)), At(Waypoint(self, q, k)));
    }
  }

  lemma WayStarts(self: Path, q: Path)
    ensures Waypoint(self, q, 0) == self
  {
  }

  lemma OneMore(nodes: set<Path>, w: Where, p: Path, n: nat, x: Where, y: Where)
    requires After(nodes, w, p, n) == x && Step(nodes, x, p) == y
    ensures After(nodes, w, p, n + 1) == y
  {
  }

  lemma WayEnds(nodes: set<Path>, self: Path, p: Path, q: Path)
    requires Tree(nodes) && self in nodes && Deepest(nodes, p, q)
    ensures After(nodes, At(self), p, Distance(self, q)) == At(q)
  {
    WayTo(nodes, self, p, q, Distance(self, q));
    if |self| == Common(self, q) || |q| > Common(self, q) {
      assert q[..|q|] == q && self[..|self|] == self;
    }
  }

  /** Once a command has stopped it stays where it is. */
  lemma {:induction false} Stays(nodes: set<Path>, w: Where, p: Path, m: nat, n: nat)
    requires m <= n && !After(nodes, w, p, m).At?
    ensures After(nodes, w, p, n) == After(nodes, w, p, m)
    decreases n
  {
    if m < n {
      Stays(nodes, w, p, m, n - 1);
    }
  }

  /** What stopped at two moments stopped as the same. */
  lemma OneEnd(nodes: set<Path>, w: Where, p: Path, m: nat, n: nat)
    requires !After(nodes, w, p, m).At? && !After(nodes, w, p, n).At?
    ensures After(nodes, w, p, m) == After(nodes, w, p, n)
  {
    if m <= n {
      Stays(nodes, w, p, m, n);
    } else {
      Stays(nodes, w, p, n, m);
    }
  }

  /** A command that has stopped as `e` ends so and in no other way. */
  lemma StopsAs(nodes: set<Path>, w: Where, p: Path, n: nat, e: Where)
    requires After(nodes, w, p, n) == e && !e.At?
    ensures !Circulates(nodes, w, p)
    ensures forall end: Where :: !end.At? ==> (Ends(nodes, w, p, end) <==> end == e)
  {
    forall m | !After(nodes, w, p, m).At?
      ensures After(nodes, w, p, m) == e
    {
      OneEnd(nodes, w, p, m, n);
    }
  }

  /** In any well-formed tree a command that names an existing node arrives exactly there, from
      wherever it starts, along the shortest way: up to the lowest common ancestor, then only
      down. */
  lemma RouteDelivers(nodes: set<Path>, self: Path, p: Path)
    requires Tree(nodes) && self in nodes && p in nodes && p != []
    ensures forall k :: 0 <= k <= Distance(self, p) ==> After(nodes, At(self), p, k) == At(Waypoint(self, p, k))
    ensures After(nodes, At(self), p, Distance(self, p) + 1) == Executed(p)
    ensures forall end: Where :: !end.At? ==> (Ends(nodes, At(self), p, end) <==> end == Executed(p))
  {
    forall k | 0 <= k <= Distance(self, p)
      ensures After(nodes, At(self), p, k) == At(Waypoint(self, p, k))
    {
      WayTo(nodes, self, p, p, k);
    }
    WayEnds(nodes, self, p, p);
    StopsAs(nodes, At(self), p, Distance(self, p) + 1, Executed(p));
  }

  // ---------------------------------------------------------------- missing nodes

  /** At `a` the command turns back, and its parent sends it down again. */
  lemma TurningStep(nodes: set<Path>, p: Path, a: Path)
    requires a in nodes && a != [] && Slot(a) > 1 && TurnsBack(a, p)
    ensures Step(nodes, At(a), p) == At(Parent(a)) && Step(nodes, At(Parent(a)), p) == At(a)
  {
    var u, s := Parent(a), Slot(a);
    assert u + [s] == a;
    assert u < p && p[|u|] == s;
    assert Forward(nodes, u, s) == At(a);
  }

  function Run(nodes: set<Path>, w: Where, p: Path): nat -> Where {
    (n: nat) => After(nodes, w, p, n)
  }

  ghost predicate Returns(f: nat -> Where, x: Where, y: Where, n: nat) {
    f(n) == x ==> f(n + 1) == y && f(n + 2) == x
  }

  /** Once at `x`, it is there again after every second hop. */
  lemma {:induction false} BackAndForth(f: nat -> Where, x: Where, y: Where, d: nat, j: nat)
    requires f(d) == x && forall n :: Returns(f, x, y, n)
    ensures f(d + 2 * j) == x && f(d + 2 * j + 1) == y
  {
    assert Returns(f, x, y, d + 2 * j);
    if j > 0 {
      BackAndForth(f, x, y, d, j - 1);
      assert Returns(f, x, y, d + 2 * (j - 1));
      assert d + 2 * (j - 1) + 2 == d + 2 * j;
    }
  }

  lemma TwoMore(nodes: set<Path>, w: Where, p: Path, a: Path, m: nat)
    requires a != [] && Step(nodes, At(a), p) == At(Parent(a)) && Step(nodes, At(Parent(a)), p) == At(a)
    ensures Returns(Run(nodes, w, p), At(a), At(Parent(a)), m)
  {
    assert After(nodes, w, p, m + 1) == Step(nodes, After(nodes, w, p, m), p);
    assert After(nodes, w, p, m + 2) == Step(nodes, After(nodes, w, p, m + 1), p);
  }

  lemma MovesOn(nodes: set<Path>, w: Where, p: Path, a: Path, d: nat, n: nat)
    requires a != [] && Step(nodes, At(a), p) == At(Parent(a)) && Step(nodes, At(Parent(a)), p) == At(a)
    requires d <= n && Run(nodes, w, p)(d) == At(a)
    ensures Run(nodes, w, p)(n).At?
  {
    forall m: nat
      ensures Returns(Run(nodes, w, p), At(a), At(Parent(a)), m)
    {
      TwoMore(nodes, w, p, a, m);
    }
    Alternates(Run(nodes, w, p), At(a), At(Parent(a)), d, n);
  }

  lemma Alternates(f: nat -> Where, x: Where, y: Where, d: nat, n: nat)
    requires d <= n && f(d) == x && forall m :: Returns(f, x, y, m)
    ensures f(n) == x || f(n) == y
  {
    var j := (n - d) / 2;
    BackAndForth(f, x, y, d, j);
    assert n == d + 2 * j || n == d + 2 * j + 1;
  }

  lemma CirculatesFrom(nodes: set<Path>, self: Path, p: Path, a: Path)
    requires Tree(nodes) && self in nodes && Deepest(nodes, p, a) && a != [] && TurnsBack(a, p)
    ensures Circulates(nodes, At(self), p)
  {
    var d := Distance(self, a);
    WayEnds(nodes, self, p, a);
    TurningStep(nodes, p, a);
    forall n: nat
      ensures After(nodes, At(self), p, n).At?
    {
      if n >= d {
        MovesOn(nodes, At(self), p, a, d, n);
      } else {
        WayTo(nodes, self, p, a, n);
      }
    }
  }

  lemma StopsBehind(nodes: set<Path>, self: Path, p: Path, a: Path)
    requires Tree(nodes) && self in nodes && Deepest(nodes, p, a) && a != p && !(a != [] && TurnsBack(a, p))
    ensures var e := if p[|a|] > 1 then Dropped(a) else AtHost;
      !Circulates(nodes, At(self), p) && forall end: Where :: !end.At? ==> (Ends(nodes, At(self), p, end) <==> end == e)
  {
    WayEnds(nodes, self, p, a);
    var e := if p[|a|] > 1 then Dropped(a) else AtHost;
    assert Step(nodes, At(a), p) == e;
    StopsAs(nodes, At(self), p, Distance(self, a) + 1, e);
  }

  /** A command that names no node goes to `a`, the deepest node on its way, and then depends on
      the element behind: above 1 it is dropped there; otherwise it leaves to the host, if `a` is
      the root, and circulates for ever between `a` and its parent if not. Nobody executes it. */
  lemma RouteOfMissing(nodes: set<Path>, self: Path, p: Path)
    requires Tree(nodes) && self in nodes && p !in nodes
    ensures var a, w := Anchor(nodes, p), At(self);
      && After(nodes, w, p, Distance(self, a)) == At(a) && a < p
      && (forall at :: Ends(nodes, w, p, Dropped(at)) <==> at == a && p[|a|] > 1)
      && (Ends(nodes, w, p, AtHost) <==> a == [] && p[0] <= 1)
      && (Circulates(nodes, w, p) <==> a != [] && p[|a|] <= 1)
      && (forall at :: !Ends(nodes, w, p, Executed(at)))
  {
    var a := Anchor(nodes, p);
    WayEnds(nodes, self, p, a);
    if a != [] && p[|a|] <= 1 {
      CirculatesFrom(nodes, self, p, a);
    } else {
      StopsBehind(nodes, self, p, a);
    }
  }

  /** Such a command: below a root with the one child 5, the path [5, 0] goes up from 5, down
      again from the root, and so on. */
  lemma ZeroCirculates()
    ensures Tree({[], [5]}) && Circulates({[], [5]}, At([5]), [5, 0]) && Circulates({[], [5]}, At([]), [5, 0])
    ensures Ends({[], [5]}, At([5]), [0], AtHost)
  {
    var nodes: set<Path> := {[], [5]};
    var p: Path := [5, 0];
    assert Parent([5]) == [] && Parent(p) == [5] && Parent([0]) == [];
    assert Anchor(nodes, Parent(p)) == [5] && Anchor(nodes, p) == [5];
    RouteOfMissing(nodes, [5], p);
    RouteOfMissing(nodes, [], p);
    assert Anchor(nodes, Parent([0])) == [] && Anchor(nodes, [0]) == [];
    RouteOfMissing(nodes, [5], [0]);
  }

  /** A command at `self` executes at `at`: routed by its path, or by its relative target if it
      has none. */
  ghost predicate Executes(nodes: set<Path>, self: Path, p: Path, target: int, at: Path) {
    if p != [] then Ends(nodes, At(self), p, Executed(at)) else Relay(nodes, self, target) == AtNode(at)
  }

  /** The place that a relative target names, seen from `self`. */
  predicate Addressed(self: Path, target: int, at: Path) {
    if target == LocalId(self) then at == self
    else if target == ROOT_ID then at == []
    else target > 1 && at == self + [target]
  }

  lemma PathExecutes(nodes: set<Path>, self: Path, p: Path, at: Path)
    requires Tree(nodes) && self in nodes && p != []
    ensures Ends(nodes, At(self), p, Executed(at)) <==> at == p && p in nodes
  {
    if p in nodes {
      RouteDelivers(nodes, self, p);
    } else {
      RouteOfMissing(nodes, self, p);
    }
  }

  lemma TargetExecutes(nodes: set<Path>, self: Path, target: int, at: Path)
    requires Tree(nodes) && self in nodes
    ensures Relay(nodes, self, target) == AtNode(at) <==> at in nodes && Addressed(self, target, at)
  {
    RelayIs(nodes, self, target);
  }

  /** A command is executed by the node that the first eight numbers of its path name, if it
      exists, and by no other; a shorter path names its node in full. Without a number in the
      path, or with a text too long to be looked at, the node that its target names executes
      it, if it exists. */
  lemma CommandReachesNamed(nodes: set<Path>, self: Path, elements: seq<Element>, size: nat, target: int, at: Path)
    requires Tree(nodes) && self in nodes
    ensures Executes(nodes, self, Extracted(elements, size), target, at) <==>
      (at in nodes &&
       if Numbers(elements) != [] && 0 < size <= PAYLOAD_MAX
       then at <= Numbers(elements) && (at == Numbers(elements) || |at| == SELF_PATH_MAX)
       else Addressed(self, target, at))
  {
    var p := Extracted(elements, size);
    if p != [] {
      assert p <= Numbers(elements) && (at <= Numbers(elements) && |at| == |p| ==> at == p);
      PathExecutes(nodes, self, p, at);
    } else {
      TargetExecutes(nodes, self, target, at);
    }
  }

  // ---------------------------------------------------------------- the endpoint

  /** What an endpoint does with a command of its own client. */
  datatype First =
    | Local                  // executed here
    | Sent(w: Where)         // forwarded; the entry waits for the receipt
    | Unsent                 // not forwarded, and nobody is told; the entry waits for the reaper
    | NotFound               // not forwarded, and the client is told at once

  /** `qz_control_endpoint_cmd`: a path longer than the node's own is sent to the slot at the
      node's depth, whatever comes before that; otherwise the relative target decides. */
  function EndpointHop(nodes: set<Path>, self: Path, p: Path, target: int): First {
    if |p| > |self| then
      match Forward(nodes, self, p[|self|]) { case Dropped(_) => Unsent case w => Sent(w) }
    else if target == LocalId(self) then Local
    else match Forward(nodes, self, target) { case Dropped(_) => NotFound case w => Sent(w) }
  }

  /** A client's command executes at `at`. */
  ghost predicate EndpointExecutes(nodes: set<Path>, self: Path, p: Path, target: int, at: Path) {
    match EndpointHop(nodes, self, p, target)
    case Local => at == self
    case Sent(w) => w.At? && Executes(nodes, w.node, p, target, at)
    case _ => false
  }

  /** Where a client's command executes. With a path longer than the endpoint's own: at the node
      it names, if and only if that exists and the endpoint has a child at the slot that the path
      has at its depth, even one on another branch. Otherwise the target decides: the endpoint
      executes what is addressed to it; a command without a path executes where the target says;
      one with a path at the node it names, unless the target is a child that does not exist. */
  lemma EndpointReaches(nodes: set<Path>, self: Path, p: Path, target: int, at: Path)
    requires Tree(nodes) && self in nodes
    ensures EndpointExecutes(nodes, self, p, target, at) <==>
      (at in nodes &&
       if |p| > |self| then at == p && self + [p[|self|]] in nodes
       else if p == [] || target == LocalId(self) then Addressed(self, target, at)
       else at == p && (target <= 1 || self + [target] in nodes))
  {
    if |p| > |self| {
      if p in nodes {
        TreeHasPrefixes(nodes, p, |self| + 1);
      }
      Onward(nodes, self, p, p[|self|], target, at);
    } else if target != LocalId(self) {
      Onward(nodes, self, p, target, target, at);
    }
  }

  /** From where the first hop leads, the command is routed like any other. */
  lemma Onward(nodes: set<Path>, self: Path, p: Path, slot: int, target: int, at: Path)
    requires Tree(nodes) && self in nodes && (p == [] ==> slot == target != LocalId(self))
    ensures var w := Forward(nodes, self, slot);
      (w.At? && Executes(nodes, w.node, p, target, at)) <==>
        (at in nodes &&
         if p == [] then Addressed(self, target, at)
         else at == p && (if slot > 1 then self + [slot] in nodes else self != []))
  {
    match Forward(nodes, self, slot)
    case At(next) => {
      if p != [] {
        PathExecutes(nodes, next, p, at);
      } else {
        RelayIs(nodes, self, target);
      }
    }
    case _ =>
  }

  /** A command for a node below the endpoint always finds it. */
  lemma EndpointReachesBelow(nodes: set<Path>, self: Path, p: Path, target: int)
    requires Tree(nodes) && self in nodes && p in nodes && self < p
    ensures forall at :: EndpointExecutes(nodes, self, p, target, at) <==> at == p
  {
    TreeHasPrefixes(nodes, p, |self| + 1);
    assert p[..|self| + 1] == self + [p[|self|]];
    forall at
      ensures EndpointExecutes(nodes, self, p, target, at) <==> at == p
    {
      EndpointReaches(nodes, self, p, target, at);
    }
  }

  // ---------------------------------------------------------------- relative addressing

  datatype Target = ToSelf | Upward | Downward | NoTarget

  /** `qz_ctl_route_decide`. */
  function RouteDecide(localId: int, target: int): Target {
    if target == localId then ToSelf
    else if target == 0 || target == 1 then Upward
    else if target > 1 then Downward
    else NoTarget
  }

  /** Where an envelope with a relative target ends: at a node, at the host above the root, or
      nowhere. */
  datatype End = AtNode(at: Path) | Host | Lost

  function Relay(nodes: set<Path>, self: Path, target: int): End
    decreases if target == LocalId(self) then 0 else if target > 1 then 1 else |self| + 2
  {
    match RouteDecide(LocalId(self), target)
    case ToSelf => AtNode(self)
    case Upward => if self == [] then Host else Relay(nodes, Parent(self), target)
    case Downward => if self + [target] in nodes then Relay(nodes, self + [target], target) else Lost
    case NoTarget => Lost
  }

  /** `ctl_emit_remote`: the first hop of a receipt, towards the command's source. */
  function EmitReceipt(nodes: set<Path>, self: Path, source: int): End {
    if source == 0 || source == 1 then (if self == [] then Host else Relay(nodes, Parent(self), source))
    else if self + [source] in nodes then Relay(nodes, self + [source], source)
    else Lost
  }

  lemma {:induction false} ReceiptClimbs(nodes: set<Path>, self: Path)
    requires Tree(nodes) && self in nodes
    ensures Relay(nodes, self, ROOT_ID) == AtNode([])
    decreases |self|
  {
    if self != [] {
      ReceiptClimbs(nodes, Parent(self));
    }
  }

  lemma {:induction false} ZeroClimbs(nodes: set<Path>, self: Path)
    requires Tree(nodes) && self in nodes
    ensures Relay(nodes, self, 0) == Host
    decreases |self|
  {
    if self != [] {
      ZeroClimbs(nodes, Parent(self));
    }
  }

  /** Where every relative target leads: a node's own id to itself, 1 to the root, 0 to the host,
      the slot of a child to that child, and anything else nowhere. */
  lemma RelayIs(nodes: set<Path>, self: Path, target: int)
    requires Tree(nodes) && self in nodes
    ensures target == LocalId(self) ==> Relay(nodes, self, target) == AtNode(self)
    ensures target == 1 ==> Relay(nodes, self, target) == AtNode([])
    ensures target == 0 ==> Relay(nodes, self, target) == Host
    ensures target > 1 && target != LocalId(self) ==>
      Relay(nodes, self, target) == if self + [target] in nodes then AtNode(self + [target]) else Lost
    ensures target < 0 ==> Relay(nodes, self, target) == Lost
  {
    ReceiptClimbs(nodes, self);
    ZeroClimbs(nodes, self);
    assert LocalId(self + [target]) == target;
  }

  /** Where a receipt ends, whatever source id its command carried: at the root for 1, at the host
      for 0, and otherwise at the executing node's own child of that slot, if there is one. */
  lemma ReceiptEnds(nodes: set<Path>, self: Path, source: int)
    requires Tree(nodes) && self in nodes
    ensures EmitReceipt(nodes, self, source)
         == if source == 0 then Host
            else if source == 1 then (if self == [] then Host else AtNode([]))
            else if self + [source] in nodes then AtNode(self + [source]) else Lost
  {
    if self != [] {
      RelayIs(nodes, Parent(self), source);
    }
    if self + [source] in nodes {
      assert LocalId(self + [source]) == source;
    }
  }

  /** The source id of a command is not rewritten on its way, so the receipt finds the sender
      exactly when the sender is the root and another node executed the command, or when the
      sender's parent did; from anywhere else it ends elsewhere. */
  lemma ReceiptReturnsIff(nodes: set<Path>, origin: Path, self: Path)
    requires Tree(nodes) && origin in nodes && self in nodes
    ensures EmitReceipt(nodes, self, LocalId(origin)) == AtNode(origin)
       <==> if origin == [] then self != [] else self == Parent(origin)
  {
    ReceiptEnds(nodes, self, LocalId(origin));
    if origin != [] {
      assert origin == Parent(origin) + [Slot(origin)];
    }
  }

  lemma RootSends(nodes: set<Path>, p: Path)
    requires Tree(nodes) && p in nodes && p != []
    ensures EndpointHop(nodes, [], p, ROOT_ID) == Sent(At(p[..1])) && After(nodes, At(p[..1]), p, |p|) == Executed(p)
  {
    TreeHasPrefixes(nodes, p, 1);
    assert [] + [p[0]] == p[..1];
    OnPathIffCommon(p[..1], p);
    RouteDelivers(nodes, p[..1], p);
  }

  /** Round trip from the root, where the endpoint listens: a command for any other node is
      executed by that node, and its receipt comes back to the root. */
  lemma RootRoundTrip(nodes: set<Path>, p: Path)
    requires Tree(nodes) && p in nodes && p != []
    ensures EndpointHop(nodes, [], p, ROOT_ID) == Sent(At(p[..1])) && After(nodes, At(p[..1]), p, |p|) == Executed(p)
    ensures EmitReceipt(nodes, p, LocalId([])) == AtNode([])
  {
    RootSends(nodes, p);
    ReceiptReturnsIff(nodes, [], p);
  }
}
