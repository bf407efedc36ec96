/**
  Bounded JSON validation (sidecar/json_limits.py): an explicit-stack walk over a value graph
  whose containers may be shared or cyclic.  The reference is the recursive definition of depth,
  items and nodes on finite trees; a graph is valid when it unfolds into a valid tree.
*/
module JsonLimits {
  import opened Common

  type Ref = nat

  /** A Python value. `Object` lists its pairs flat: key, value, key, value. `Text` holds its UTF-8
      length, or none when it has lone surrogates. */
  datatype Node =
    | Null | Bool | Int(bits: nat) | Float(finite: bool) | Text(utf8: Option<nat>)
    | List(items: seq<Ref>) | Object(members: seq<Ref>) | Other

  type Graph = seq<Node>

  datatype Limits = Limits(maxDepth: Option<nat>, maxItems: Option<nat>, maxNodes: Option<nat>,
                           maxStringBytes: Option<nat>, maxIntegerBits: Option<nat>)

  datatype Reason =
    | DepthLimit | ItemLimit | NodeLimit | StringLimit | IntegerLimit
    | NonFinite | BadUnicode | BadKey | Cyclic | BadType

  predicate Within(value: nat, limit: Option<nat>) {
    limit.None? || value <= limit.value
  }

  predicate Container(n: Node) {
    n.List? || n.Object?
  }

  function Children(n: Node): seq<Ref> {
    match n
    case List(items) => items
    case Object(members) => members
    case _ => []
  }

  ghost predicate Closed(g: Graph) {
    forall r: Ref | r < |g| ::
      && (forall i | 0 <= i < |Children(g[r])| :: Children(g[r])[i] < |g|)
      && (g[r].Object? ==> |g[r].members| % 2 == 0)
  }

  // ---------- the recursive reference, on trees ----------

  datatype Tree = Leaf(node: Node) | Branch(node: Node, children: seq<Tree>)

  /** The graph at `r` unfolds into the finite tree `t`. */
  ghost predicate Unfolds(g: Graph, r: Ref, t: Tree)
    decreases t
  {
    && r < |g| && g[r] == t.node
    && match t
       case Leaf(n) => !Container(n)
       case Branch(n, cs) =>
         Container(n) && |cs| == |Children(n)| && forall i | 0 <= i < |cs| :: Unfolds(g, Children(n)[i], cs[i])
  }

  /** All array elements and object members. */
  function Items(t: Tree): nat {
    match t
    case Leaf(_) => 0
    case Branch(n, cs) => (if n.Object? then |cs| / 2 else |cs|) + ItemsOf(cs)
  }

  function ItemsOf(cs: seq<Tree>): nat {
    if cs == [] then 0 else Items(cs[0]) + ItemsOf(cs[1..])
  }

  /** All values, the root and every key included. */
  function Nodes(t: Tree): nat {
    match t
    case Leaf(_) => 1
    case Branch(_, cs) => 1 + NodesOf(cs)
  }

  function NodesOf(cs: seq<Tree>): nat {
    if cs == [] then 0 else Nodes(cs[0]) + NodesOf(cs[1..])
  }

  /** Depth of the deepest value; the root has depth zero. */
  function Depth(t: Tree): nat {
    match t
    case Leaf(_) => 0
    case Branch(_, cs) => if cs == [] then 0 else 1 + DepthOf(cs)
  }

  function DepthOf(cs: seq<Tree>): nat {
    if cs == [] then 0 else Max(Depth(cs[0]), DepthOf(cs[1..]))
  }

  predicate LeafLegal(n: Node, lim: Limits) {
    match n
    case Int(bits) => Within(bits, lim.maxIntegerBits)
    case Float(finite) => finite
    case Text(utf8) => utf8.Some? && Within(utf8.value, lim.maxStringBytes)
    case Other => false
    case _ => true
  }

  predicate KeysAreText(n: Node, cs: seq<Tree>) {
    n.Object? ==> forall i | 0 <= i < |cs| && i % 2 == 0 :: cs[i].node.Text?
  }

  predicate ValuesLegal(t: Tree, lim: Limits) {
    match t
    case Leaf(n) => LeafLegal(n, lim)
    case Branch(n, cs) => KeysAreText(n, cs) && forall i | 0 <= i < |cs| :: ValuesLegal(cs[i], lim)
  }

  /** The recursive definition that the traversal has to match. */
  predicate Valid(t: Tree, lim: Limits) {
    && ValuesLegal(t, lim)
    && Within(Depth(t), lim.maxDepth) && Within(Items(t), lim.maxItems) && Within(Nodes(t), lim.maxNodes)
  }

  ghost predicate Accepts(g: Graph, r: Ref, lim: Limits) {
    exists t :: Unfolds(g, r, t) && Valid(t, lim)
  }

  lemma {:induction false} UnfoldingIsUnique(g: Graph, r: Ref, t: Tree, u: Tree)
    requires Unfolds(g, r, t) && Unfolds(g, r, u)
    ensures t == u
    decreases t
  {
    if t.Branch? {
      forall i | 0 <= i < |t.children| ensures t.children[i] == u.children[i] {
        UnfoldingIsUnique(g, Children(t.node)[i], t.children[i], u.children[i]);
      }
    }
  }

  lemma {:induction false} ChildIsSmaller(cs: seq<Tree>, i: nat)
    requires i < |cs|
    ensures Nodes(cs[i]) <= NodesOf(cs)
  {
    if i > 0 {
      ChildIsSmaller(cs[1..], i - 1);
    }
  }

  // ---------- cycles ----------

  ghost predicate Path(g: Graph, p: seq<Ref>) {
    && (forall i | 0 <= i < |p| :: p[i] < |g|)
    && forall i | 0 <= i < |p| - 1 :: p[i + 1] in Children(g[p[i]])
  }

  /** Some path from `r` comes back to a value it has already been at. */
  ghost predicate CycleReachable(g: Graph, r: Ref) {
    exists p: seq<Ref> :: |p| > 0 && p[0] == r && Path(g, p) && Repeats(p)
  }

  ghost predicate Repeats(p: seq<Ref>) {
    exists i, j | 0 <= i < j < |p| :: p[i] == p[j]
  }

  lemma PathFrom(g: Graph, p: seq<Ref>, i: nat)
    requires Path(g, p) && i <= |p|
    ensures Path(g, p[i..])
  {
    var q := p[i..];
    forall k | 0 <= k < |q| - 1 ensures q[k + 1] in Children(g[q[k]]) {
      assert p[i + k + 1] in Children(g[p[i + k]]);
    }
  }

  /** Along a path in an unfolding, trees get strictly smaller. */
  lemma {:induction false} SubtreeOnPath(g: Graph, p: seq<Ref>, t: Tree, j: nat) returns (u: Tree)
    requires Path(g, p) && j < |p| && Unfolds(g, p[0], t)
    ensures Unfolds(g, p[j], u) && (if j > 0 then Nodes(u) < Nodes(t) else u == t)
    decreases j
  {
    u := t;
    if j > 0 {
      assert p[0 + 1] in Children(g[p[0]]);
      var i :| 0 <= i < |t.children| && Children(t.node)[i] == p[1];
      ChildIsSmaller(t.children, i);
      PathFrom(g, p, 1);
      u := SubtreeOnPath(g, p[1..], t.children[i], j - 1);
    }
  }

  lemma NeverBack(g: Graph, p: seq<Ref>, t: Tree, i: nat, j: nat)
    requires Path(g, p) && i < j < |p| && Unfolds(g, p[0], t)
    ensures p[i] != p[j]
  {
    var ti := SubtreeOnPath(g, p, t, i);
    PathFrom(g, p, i);
    var tj := SubtreeOnPath(g, p[i..], ti, j - i);
    if p[i] == p[j] {
      UnfoldingIsUnique(g, p[i], ti, tj);
    }
  }

  lemma UnfoldingHasNoCycle(g: Graph, r: Ref, t: Tree)
    requires Unfolds(g, r, t)
    ensures !CycleReachable(g, r)
  {
    forall p: seq<Ref> | |p| > 0 && p[0] == r && Path(g, p) ensures !Repeats(p) {
      forall i, j | 0 <= i < j < |p| ensures p[i] != p[j] {
        NeverBack(g, p, t, i, j);
      }
    }
  }

  // ---------- the walk, as a recursion over the values still on the path ----------

  predicate InGraph(g: Graph, r: Ref) {
    r < |g|
  }

  function Unseen(g: Graph, active: set<Ref>): set<Ref> {
    (set r: Ref | 0 <= r < |g| && InGraph(g, r)) - active
  }

  datatype Totals = Totals(items: nat, nodes: nat)

  function Plus(a: Option<Totals>, b: Option<Totals>): Option<Totals> {
    if a.Some? && b.Some? then Some(Totals(a.value.items + b.value.items, a.value.nodes + b.value.nodes)) else None
  }

  predicate BadKeyIn(g: Graph, n: Node) {
    n.Object? && exists i | 0 <= i < |n.members| && i % 2 == 0 :: n.members[i] < |g| && !g[n.members[i]].Text?
  }

  function Own(n: Node): Totals {
    Totals(if n.Object? then |n.members| / 2 else |Children(n)|, |Children(n)|)
  }

  // The walk under the limits of `ru`; without any, only a cycle stops it.

  predicate DepthOk(depth: nat, ru: Option<Limits>) {
    ru.Some? ==> Within(depth, ru.value.maxDepth)
  }

  predicate LeafOk(n: Node, ru: Option<Limits>) {
    ru.Some? ==> LeafLegal(n, ru.value)
  }

  predicate KeysOk(g: Graph, n: Node, ru: Option<Limits>) {
    ru.Some? ==> !BadKeyIn(g, n)
  }

  /** Items and nodes below `r` when every value below it is legal; `None` when one is not, or when the
      walk comes back to a container of `active`. */
  function Visit(g: Graph, r: Ref, active: set<Ref>, depth: nat, ru: Option<Limits>): Option<Totals>
    requires Closed(g) && r < |g|
    decreases Unseen(g, active), 0
  {
    if !DepthOk(depth, ru) then None
    else if !Container(g[r]) then (if LeafOk(g[r], ru) then Some(Totals(0, 0)) else None)
    else if r in active || !KeysOk(g, g[r], ru) then None
    else
      assert InGraph(g, r);
      Plus(Some(Own(g[r])), VisitAll(g, Children(g[r]), active + {r}, depth + 1, ru))
  }

  function VisitAll(g: Graph, rs: seq<Ref>, active: set<Ref>, depth: nat, ru: Option<Limits>): Option<Totals>
    requires Closed(g) && forall i | 0 <= i < |rs| :: rs[i] < |g|
    decreases Unseen(g, active), 1 + |rs|
  {
    if rs == [] then Some(Totals(0, 0))
    else Plus(Visit(g, rs[0], active, depth, ru), VisitAll(g, rs[1..], active, depth, ru))
  }

  /** What a successful visit found is a tree with those totals. */
  lemma {:induction false} VisitFindsTree(g: Graph, r: Ref, active: set<Ref>, depth: nat, lim: Limits) returns (t: Tree)
    requires Closed(g) && r < |g| && Visit(g, r, active, depth, Some(lim)).Some?
    ensures Unfolds(g, r, t) && ValuesLegal(t, lim) && Within(depth + Depth(t), lim.maxDepth)
    ensures Visit(g, r, active, depth, Some(lim)) == Some(Totals(Items(t), Nodes(t) - 1))
    decreases Unseen(g, active), 0
  {
    t := Leaf(g[r]);
    if Container(g[r]) {
      assert InGraph(g, r);
      var cs := VisitFindsTrees(g, Children(g[r]), active + {r}, depth + 1, lim);
      t := Branch(g[r], cs);
      KeysOfUnfolding(g, r, cs);
    }
  }

  lemma KeysOfUnfolding(g: Graph, r: Ref, cs: seq<Tree>)
    requires Closed(g) && r < |g| && Container(g[r]) && !BadKeyIn(g, g[r])
    requires |cs| == |Children(g[r])| && forall i | 0 <= i < |cs| :: Unfolds(g, Children(g[r])[i], cs[i])
    ensures KeysAreText(g[r], cs)
  {
    if g[r].Object? {
      forall i | 0 <= i < |cs| && i % 2 == 0 ensures cs[i].node.Text? {
        assert cs[i].node == g[g[r].members[i]];
      }
    }
  }

  /** The trees `cs` stand for the values `rs`. */
  ghost predicate StandFor(g: Graph, rs: seq<Ref>, cs: seq<Tree>, lim: Limits) {
    |cs| == |rs| && forall i | 0 <= i < |cs| :: Unfolds(g, rs[i], cs[i]) && ValuesLegal(cs[i], lim)
  }

  lemma StandForOneMore(g: Graph, r: Ref, rs: seq<Ref>, t: Tree, cs: seq<Tree>, lim: Limits)
    requires Unfolds(g, r, t) && ValuesLegal(t, lim) && StandFor(g, rs, cs, lim)
    ensures StandFor(g, [r] + rs, [t] + cs, lim)
  {
    var rs', cs' := [r] + rs, [t] + cs;
    forall i | 0 <= i < |cs'| ensures Unfolds(g, rs'[i], cs'[i]) && ValuesLegal(cs'[i], lim) {
      if i > 0 {
        assert cs'[i] == cs[i - 1] && rs'[i] == rs[i - 1];
      }
    }
  }

  lemma SumsOfTrees(t: Tree, cs: seq<Tree>)
    ensures ItemsOf([t] + cs) == Items(t) + ItemsOf(cs) && NodesOf([t] + cs) == Nodes(t) + NodesOf(cs) && Nodes(t) >= 1
    ensures DepthOf([t] + cs) == Max(Depth(t), DepthOf(cs))
  {
    assert ([t] + cs)[1..] == cs;
  }

  lemma FoundSums(t: Tree, cs: seq<Tree>, depth: nat, lim: Limits)
    requires Within(depth + Depth(t), lim.maxDepth) && (cs == [] || Within(depth + DepthOf(cs), lim.maxDepth))
             && NodesOf(cs) >= |cs|
    ensures Within(depth + DepthOf([t] + cs), lim.maxDepth) && NodesOf([t] + cs) >= |[t] + cs|
    ensures Plus(Some(Totals(Items(t), Nodes(t) - 1)), Some(Totals(ItemsOf(cs), NodesOf(cs) - |cs|)))
            == Some(Totals(ItemsOf([t] + cs), NodesOf([t] + cs) - |[t] + cs|))
  {
    SumsOfTrees(t, cs);
  }

  lemma {:induction false} VisitFindsTrees(g: Graph, rs: seq<Ref>, active: set<Ref>, depth: nat, lim: Limits)
    returns (cs: seq<Tree>)
    requires Closed(g) && forall i | 0 <= i < |rs| :: rs[i] < |g|
    requires VisitAll(g, rs, active, depth, Some(lim)).Some?
    ensures StandFor(g, rs, cs, lim)
    ensures cs == [] || Within(depth + DepthOf(cs), lim.maxDepth)
    ensures NodesOf(cs) >= |cs|
            && VisitAll(g, rs, active, depth, Some(lim)) == Some(Totals(ItemsOf(cs), NodesOf(cs) - |cs|))
    decreases Unseen(g, active), 1 + |rs|
  {
    cs := [];
    if rs != [] {
      var t := VisitFindsTree(g, rs[0], active, depth, lim);
      var rest := VisitFindsTrees(g, rs[1..], active, depth, lim);
      cs := [t] + rest;
      StandForOneMore(g, rs[0], rs[1..], t, rest, lim);
      SumsOfFirst(g, rs, active, depth, Some(lim));
      FoundSums(t, rest, depth, lim);
      assert rs == [rs[0]] + rs[1..];
    }
  }

  /** Every active container unfolds into something bigger than what is still to be visited. */
  ghost predicate Above(g: Graph, active: set<Ref>, size: nat) {
    forall a | a in active :: exists u :: Unfolds(g, a, u) && Nodes(u) > size
  }

  /** The tree is legal under `ru`, with its root at this depth. */
  predicate TreeOk(t: Tree, depth: nat, ru: Option<Limits>) {
    ru.Some? ==> ValuesLegal(t, ru.value) && Within(depth + Depth(t), ru.value.maxDepth)
  }

  /** A legal tree is visited with success, and its containers are never met again on the way down. */
  lemma {:induction false} VisitOfTree(g: Graph, r: Ref, t: Tree, active: set<Ref>, depth: nat, ru: Option<Limits>)
    requires Closed(g) && Unfolds(g, r, t) && TreeOk(t, depth, ru)
    requires Above(g, active, Nodes(t))
    ensures Visit(g, r, active, depth, ru) == Some(Totals(Items(t), Nodes(t) - 1))
    decreases t, 0
  {
    if t.Branch? {
      NotMetAgain(g, r, t, active);
      KeysOfTree(g, t, ru);
      forall i | 0 <= i < |t.children| ensures Nodes(t.children[i]) < Nodes(t) && TreeOk(t.children[i], depth + 1, ru) {
        ChildIsSmaller(t.children, i);
        ChildIsLower(t.children, i);
      }
      VisitOfTrees(g, Children(t.node), t.children, t, active + {r}, depth + 1, ru, Nodes(t) - 1);
    }
  }

  lemma KeysOfTree(g: Graph, t: Tree, ru: Option<Limits>)
    requires t.Branch? && |t.children| == |Children(t.node)| && (ru.Some? ==> KeysAreText(t.node, t.children))
    requires forall i | 0 <= i < |t.children| :: Unfolds(g, Children(t.node)[i], t.children[i])
    ensures KeysOk(g, t.node, ru)
  {
    assert forall i | 0 <= i < |t.children| :: t.children[i].node == g[Children(t.node)[i]];
  }

  lemma NotMetAgain(g: Graph, r: Ref, t: Tree, active: set<Ref>)
    requires Unfolds(g, r, t) && Above(g, active, Nodes(t))
    ensures r !in active && Above(g, active + {r}, Nodes(t) - 1)
  {
    if r in active {
      var u :| Unfolds(g, r, u) && Nodes(u) > Nodes(t);
      UnfoldingIsUnique(g, r, t, u);
    }
  }

  lemma {:induction false} ChildIsLower(cs: seq<Tree>, i: nat)
    requires i < |cs|
    ensures Depth(cs[i]) <= DepthOf(cs)
  {
    if i > 0 {
      ChildIsLower(cs[1..], i - 1);
    }
  }

  lemma {:induction false} VisitOfTrees(g: Graph, rs: seq<Ref>, cs: seq<Tree>, parent: Tree, active: set<Ref>,
                                        depth: nat, ru: Option<Limits>, size: nat)
    requires Closed(g) && |rs| == |cs| && forall i | 0 <= i < |cs| ::
               cs[i] < parent && Unfolds(g, rs[i], cs[i]) && TreeOk(cs[i], depth, ru) && Nodes(cs[i]) <= size
    requires forall i | 0 <= i < |rs| :: rs[i] < |g|
    requires Above(g, active, size)
    ensures NodesOf(cs) >= |cs|
    ensures VisitAll(g, rs, active, depth, ru) == Some(Totals(ItemsOf(cs), NodesOf(cs) - |cs|))
    decreases parent, 0, |cs|
  {
    if cs != [] {
      VisitOfTree(g, rs[0], cs[0], active, depth, ru);
      VisitOfTrees(g, rs[1..], cs[1..], parent, active, depth, ru, size);
    }
  }

  /** Acceptance, read off the totals of the whole walk. */
  ghost predicate Decides(g: Graph, r: Ref, lim: Limits, v: Option<Totals>) {
    Accepts(g, r, lim) <==> v.Some? && Within(v.value.items, lim.maxItems) && Within(1 + v.value.nodes, lim.maxNodes)
  }

  /** The recursive walk decides the reference definition. */
  lemma VisitDecides(g: Graph, r: Ref, lim: Limits)
    requires Closed(g) && r < |g|
    ensures Decides(g, r, lim, Visit(g, r, {}, 0, Some(lim)))
  {
    var v := Visit(g, r, {}, 0, Some(lim));
    if v.Some? {
      var t := VisitFindsTree(g, r, {}, 0, lim);
      forall u | Unfolds(g, r, u) ensures u == t {
        UnfoldingIsUnique(g, r, t, u);
      }
    } else {
      forall t | Unfolds(g, r, t) ensures !Valid(t, lim) {
        if ValuesLegal(t, lim) && Within(Depth(t), lim.maxDepth) {
          VisitOfTree(g, r, t, {}, 0, Some(lim));
        }
      }
    }
  }

  ghost function Elements(p: seq<Ref>): set<Ref> {
    set x | x in p
  }

  /** Below a path without repetition there is a finite unfolding or a reachable cycle. */
  lemma {:induction false} UnfoldsOrCycles(g: Graph, p: seq<Ref>) returns (t: Option<Tree>)
    requires Closed(g) && |p| > 0 && Path(g, p) && !Repeats(p)
    ensures if t.Some? then Unfolds(g, p[|p| - 1], t.value) else CycleReachable(g, p[0])
    decreases Unseen(g, Elements(p)), 1, 0
  {
    var r := p[|p| - 1];
    if !Container(g[r]) {
      return Some(Leaf(g[r]));
    }
    var cs := ChildrenUnfoldOrCycle(g, p, Children(g[r]));
    t := if cs.Some? then Some(Branch(g[r], cs.value)) else None;
  }

  /** A path goes on to a child, or closes a cycle there. */
  lemma ExtendPath(g: Graph, p: seq<Ref>, r: Ref)
    requires Closed(g) && |p| > 0 && Path(g, p) && !Repeats(p) && r in Children(g[p[|p| - 1]])
    ensures Path(g, p + [r]) && (if r in p then CycleReachable(g, p[0]) else !Repeats(p + [r]))
    ensures r !in p ==> Unseen(g, Elements(p + [r])) < Unseen(g, Elements(p))
  {
    var q := p + [r];
    assert Path(g, q);
    if r in p {
      var i :| 0 <= i < |p| && p[i] == r;
      assert q[i] == q[|p|];
      assert Repeats(q) && q[0] == p[0];
    } else {
      assert InGraph(g, r) && Elements(q) == Elements(p) + {r};
    }
  }

  lemma {:induction false} ChildrenUnfoldOrCycle(g: Graph, p: seq<Ref>, rs: seq<Ref>) returns (cs: Option<seq<Tree>>)
    requires Closed(g) && |p| > 0 && Path(g, p) && !Repeats(p)
    requires forall i | 0 <= i < |rs| :: rs[i] in Children(g[p[|p| - 1]])
    ensures if cs.Some? then |cs.value| == |rs| && forall i | 0 <= i < |rs| :: Unfolds(g, rs[i], cs.value[i])
            else CycleReachable(g, p[0])
    decreases Unseen(g, Elements(p)), 0, |rs|
  {
    if rs == [] {
      return Some([]);
    }
    ExtendPath(g, p, rs[0]);
    if rs[0] in p {
      return None;
    }
    var t := UnfoldsOrCycles(g, p + [rs[0]]);
    var rest := ChildrenUnfoldOrCycle(g, p, rs[1..]);
    if t.Some? && rest.Some? {
      cs := Some([t.value] + rest.value);
      forall i | 0 <= i < |rs| ensures Unfolds(g, rs[i], cs.value[i]) {
        if i > 0 { assert rs[i] == rs[1..][i - 1]; }
      }
    } else {
      cs := None;
    }
  }

  /** A value has a finite unfolding exactly when no cycle can be reached from it. */
  lemma UnfoldsIffAcyclic(g: Graph, r: Ref)
    requires Closed(g) && r < |g|
    ensures (exists t :: Unfolds(g, r, t)) <==> !CycleReachable(g, r)
  {
    var t := UnfoldsOrCycles(g, [r]);
    if t.Some? {
      assert Unfolds(g, r, t.value);
      UnfoldingHasNoCycle(g, r, t.value);
    } else {
      forall u | Unfolds(g, r, u) ensures false {
        UnfoldingHasNoCycle(g, r, u);
      }
    }
  }

  // ---------- the same, position by position ----------

  /** The value at a position, which says which child to take at each step. */
  function ValueAt(g: Graph, r: Ref, a: seq<nat>): Option<Node>
    decreases |a|
  {
    if r >= |g| then None
    else if a == [] then Some(g[r])
    else if a[0] < |Children(g[r])| then ValueAt(g, Children(g[r])[a[0]], a[1..])
    else None
  }

  /** The last step is to an element or to the value of a pair, so not to a key. */
  predicate ItemAt(g: Graph, r: Ref, a: seq<nat>)
    decreases |a|
  {
    && r < |g| && a != [] && a[0] < |Children(g[r])|
    && if |a| == 1 then g[r].Object? ==> a[0] % 2 == 1 else ItemAt(g, Children(g[r])[a[0]], a[1..])
  }

  /** The value at a position is one of JSON within the limits, and a text if it is a key. */
  predicate FineAt(g: Graph, r: Ref, a: seq<nat>, lim: Limits)
    requires ValueAt(g, r, a).Some?
  {
    Plain(ValueAt(g, r, a).value, lim) && (a != [] && !ItemAt(g, r, a) ==> ValueAt(g, r, a).value.Text?)
  }

  predicate Plain(n: Node, lim: Limits) {
    && !n.Other? && (n.Float? ==> n.finite)
    && (n.Int? && lim.maxIntegerBits.Some? ==> n.bits <= lim.maxIntegerBits.value)
    && (n.Text? ==> n.utf8.Some? && (lim.maxStringBytes.Some? ==> n.utf8.value <= lim.maxStringBytes.value))
  }

  function Below(k: nat, ps: set<seq<nat>>): set<seq<nat>> {
    set p | p in ps :: [k] + p
  }

  lemma {:induction false} BelowCount(k: nat, ps: set<seq<nat>>)
    ensures |Below(k, ps)| == |ps|
  {
    if ps != {} {
      var p :| p in ps;
      BelowCount(k, ps - {p});
      assert Below(k, ps) == Below(k, ps - {p}) + {[k] + p};
      BelowHas(k, ps - {p}, [k] + p);
      assert ([k] + p)[1..] == p;
    }
  }

  lemma BelowHas(k: nat, ps: set<seq<nat>>, a: seq<nat>)
    ensures a in Below(k, ps) <==> a != [] && a[0] == k && a[1..] in ps
  {
    if a in Below(k, ps) {
      var p :| p in ps && a == [k] + p;
      assert a[1..] == p;
    } else if a != [] && a[0] == k {
      assert a == [k] + a[1..];
    }
  }

  function Positions(t: Tree): set<seq<nat>> {
    match t
    case Leaf(_) => {[]}
    case Branch(_, cs) => {[]} + PositionsOf(cs, 0)
  }

  function PositionsOf(cs: seq<Tree>, k: nat): set<seq<nat>> {
    if cs == [] then {} else Below(k, Positions(cs[0])) + PositionsOf(cs[1..], k + 1)
  }

  function ItemPositions(t: Tree): set<seq<nat>> {
    match t
    case Leaf(_) => {}
    case Branch(n, cs) => ItemsFrom(n, cs, 0)
  }

  /** The items among the children `cs`, the first of which is child `k`. */
  function ItemsFrom(n: Node, cs: seq<Tree>, k: nat): set<seq<nat>>
    decreases cs
  {
    if cs == [] then {} else OwnItem(n, k) + Below(k, ItemPositions(cs[0])) + ItemsFrom(n, cs[1..], k + 1)
  }

  function OwnItem(n: Node, k: nat): set<seq<nat>> {
    if n.Object? && k % 2 == 0 then {} else {[k]}
  }

  lemma {:induction false} PositionsHave(cs: seq<Tree>, k: nat, a: seq<nat>)
    ensures a in PositionsOf(cs, k) <==> a != [] && k <= a[0] < k + |cs| && a[1..] in Positions(cs[a[0] - k])
  {
    if cs != [] {
      BelowHas(k, Positions(cs[0]), a);
      PositionsHave(cs[1..], k + 1, a);
    }
  }

  lemma {:induction false} ItemsHave(n: Node, cs: seq<Tree>, k: nat, a: seq<nat>)
    ensures a in ItemsFrom(n, cs, k) <==>
              && a != [] && k <= a[0] < k + |cs|
              && ((|a| == 1 && (n.Object? ==> a[0] % 2 == 1)) || a[1..] in ItemPositions(cs[a[0] - k]))
  {
    if cs != [] {
      BelowHas(k, ItemPositions(cs[0]), a);
      ItemsHave(n, cs[1..], k + 1, a);
      if |a| == 1 && a[0] == k { assert a == [k]; }
    }
  }

  lemma RootIsNoItem(t: Tree)
    ensures [] !in ItemPositions(t)
  {
    if t.Branch? {
      ItemsHave(t.node, t.children, 0, []);
    }
  }

  /** There are as many positions as nodes. */
  lemma {:induction false} PositionsCount(t: Tree)
    ensures |Positions(t)| == Nodes(t)
    decreases t, 0
  {
    if t.Branch? {
      PositionsOfCount(t, t.children, 0);
      PositionsHave(t.children, 0, []);
    }
  }

  lemma {:induction false} PositionsOfCount(parent: Tree, cs: seq<Tree>, k: nat)
    requires forall i | 0 <= i < |cs| :: cs[i] < parent
    ensures |PositionsOf(cs, k)| == NodesOf(cs)
    decreases parent, 0, |cs|
  {
    if cs != [] {
      PositionsCount(cs[0]);
      BelowCount(k, Positions(cs[0]));
      PositionsOfCount(parent, cs[1..], k + 1);
      forall a | a in Below(k, Positions(cs[0])) ensures a !in PositionsOf(cs[1..], k + 1) {
        PositionsHave(cs[1..], k + 1, a);
      }
    }
  }

  /** There are as many item positions as items. */
  lemma {:induction false} ItemPositionsCount(t: Tree)
    ensures |ItemPositions(t)| == Items(t)
    decreases t, 0
  {
    if t.Branch? {
      ItemsFromCount(t, t.node, t.children, 0);
    }
  }

  lemma {:induction false} ItemsFromCount(parent: Tree, n: Node, cs: seq<Tree>, k: nat)
    requires forall i | 0 <= i < |cs| :: cs[i] < parent
    ensures |ItemsFrom(n, cs, k)| == ItemsOf(cs) + if n.Object? then (k + |cs|) / 2 - k / 2 else |cs|
    decreases parent, 0, |cs|
  {
    if cs != [] {
      ItemPositionsCount(cs[0]);
      ItemsFromCount(parent, n, cs[1..], k + 1);
      ItemsApart(n, cs, k, Below(k, ItemPositions(cs[0])), ItemsFrom(n, cs[1..], k + 1));
      OwnItemCount(n, k);
    }
  }

  lemma OwnItemCount(n: Node, k: nat)
    ensures |OwnItem(n, k)| == if n.Object? then (k + 1) / 2 - k / 2 else 1
  {
  }

  lemma ItemsApart(n: Node, cs: seq<Tree>, k: nat, deeper: set<seq<nat>>, later: set<seq<nat>>)
    requires cs != [] && deeper == Below(k, ItemPositions(cs[0])) && later == ItemsFrom(n, cs[1..], k + 1)
    ensures |ItemsFrom(n, cs, k)| == |OwnItem(n, k)| + |ItemPositions(cs[0])| + |later|
  {
    BelowCount(k, ItemPositions(cs[0]));
    RootIsNoItem(cs[0]);
    BelowHas(k, ItemPositions(cs[0]), [k]);
    forall a | a in later ensures a !in OwnItem(n, k) && a !in deeper {
      ItemsHave(n, cs[1..], k + 1, a);
      BelowHas(k, ItemPositions(cs[0]), a);
    }
    DisjointCount(OwnItem(n, k), deeper, later);
  }

  lemma DisjointCount(a: set<seq<nat>>, b: set<seq<nat>>, c: set<seq<nat>>)
    requires a !! b && a !! c && b !! c
    ensures |a + b + c| == |a| + |b| + |c|
  {
  }

  /** The positions of an unfolding are those of the value. */
  lemma {:induction false} PositionsOfUnfolding(g: Graph, r: Ref, t: Tree, a: seq<nat>)
    requires Unfolds(g, r, t)
    ensures a in Positions(t) <==> ValueAt(g, r, a).Some?
    ensures a in ItemPositions(t) <==> ItemAt(g, r, a)
    decreases |a|
  {
    if t.Branch? {
      PositionsHave(t.children, 0, a);
      ItemsHave(t.node, t.children, 0, a);
      if a != [] && a[0] < |t.children| {
        PositionsOfUnfolding(g, Children(g[r])[a[0]], t.children[a[0]], a[1..]);
        RootIsNoItem(t.children[a[0]]);
      }
    }
  }

  /** The longest position is as long as the tree is deep. */
  lemma {:induction false} DepthIsLongest(t: Tree, a: seq<nat>)
    requires a in Positions(t)
    ensures |a| <= Depth(t)
    decreases |a|
  {
    if t.Branch? && a != [] {
      PositionsHave(t.children, 0, a);
      DepthIsLongest(t.children[a[0]], a[1..]);
      ChildIsLower(t.children, a[0]);
    }
  }

  lemma {:induction false} DeepestPosition(t: Tree) returns (a: seq<nat>)
    ensures a in Positions(t) && |a| == Depth(t)
    decreases t, 0
  {
    a := [];
    if t.Branch? && t.children != [] {
      var i, p := DeepestChild(t, t.children);
      a := [i] + p;
      assert a[1..] == p;
      PositionsHave(t.children, 0, a);
    }
  }

  lemma {:induction false} DeepestChild(parent: Tree, cs: seq<Tree>) returns (i: nat, a: seq<nat>)
    requires cs != [] && forall i | 0 <= i < |cs| :: cs[i] < parent
    ensures i < |cs| && a in Positions(cs[i]) && |a| == DepthOf(cs)
    decreases parent, 0, |cs|
  {
    i := 0;
    a := DeepestPosition(cs[0]);
    if |cs| > 1 {
      var j, b := DeepestChild(parent, cs[1..]);
      if |b| > |a| {
        i, a := j + 1, b;
      }
    }
  }

  /** A tree is legal when every position is fine. */
  ghost predicate AllFine(g: Graph, r: Ref, lim: Limits) {
    forall a | ValueAt(g, r, a).Some? :: FineAt(g, r, a, lim)
  }

  lemma {:induction false} LegalIsFine(g: Graph, r: Ref, t: Tree, lim: Limits, a: seq<nat>)
    requires Unfolds(g, r, t) && ValuesLegal(t, lim) && ValueAt(g, r, a).Some?
    ensures FineAt(g, r, a, lim)
    decreases |a|
  {
    if a != [] {
      LegalIsFine(g, Children(g[r])[a[0]], t.children[a[0]], lim, a[1..]);
      assert |a| == 1 ==> t.children[a[0]].node == ValueAt(g, r, a).value;
    }
  }

  lemma FineBelow(g: Graph, r: Ref, i: nat, lim: Limits)
    requires r < |g| && i < |Children(g[r])| && AllFine(g, r, lim)
    ensures AllFine(g, Children(g[r])[i], lim)
  {
    var c := Children(g[r])[i];
    forall p | ValueAt(g, c, p).Some? ensures FineAt(g, c, p, lim) {
      var a := [i] + p;
      assert a[1..] == p && ValueAt(g, r, a) == ValueAt(g, c, p);
      assert FineAt(g, r, a, lim);
    }
  }

  lemma {:induction false} FineIsLegal(g: Graph, r: Ref, t: Tree, lim: Limits)
    requires Unfolds(g, r, t) && AllFine(g, r, lim)
    ensures ValuesLegal(t, lim)
    decreases t
  {
    assert ValueAt(g, r, []).Some? && FineAt(g, r, [], lim);
    if t.Branch? {
      forall i | 0 <= i < |t.children|
        ensures ValuesLegal(t.children[i], lim) && (t.node.Object? && i % 2 == 0 ==> t.children[i].node.Text?)
      {
        FineBelow(g, r, i, lim);
        FineIsLegal(g, Children(g[r])[i], t.children[i], lim);
        assert [i][1..] == [] && ValueAt(g, r, [i]) == Some(t.children[i].node);
        assert FineAt(g, r, [i], lim);
      }
    }
  }

  /** `all` and `items` list the positions of a value, and of its items. */
  ghost predicate Listed(g: Graph, r: Ref, all: set<seq<nat>>, items: set<seq<nat>>) {
    (forall a :: a in all <==> ValueAt(g, r, a).Some?) && (forall a :: a in items <==> ItemAt(g, r, a))
  }

  /**
    Acceptance without trees: a value is accepted exactly when no cycle can be reached from it and every position has
    a value of JSON within its limit, with texts for keys, no position is too long, and there are not too many
    positions in all, nor too many of items.
  */
  lemma AcceptsByPosition(g: Graph, r: Ref, lim: Limits) returns (all: set<seq<nat>>, items: set<seq<nat>>)
    requires Closed(g) && r < |g|
    ensures CycleReachable(g, r) ==> !Accepts(g, r, lim)
    ensures !CycleReachable(g, r) ==>
              && Listed(g, r, all, items)
              && (Accepts(g, r, lim) <==>
                    && (forall a | a in all :: FineAt(g, r, a, lim))
                    && (lim.maxDepth.Some? ==> forall a | a in all :: |a| <= lim.maxDepth.value)
                    && (lim.maxNodes.Some? ==> |all| <= lim.maxNodes.value)
                    && (lim.maxItems.Some? ==> |items| <= lim.maxItems.value))
  {
    all, items := {}, {};
    UnfoldsIffAcyclic(g, r);
    if Accepts(g, r, lim) {
      var t :| Unfolds(g, r, t) && Valid(t, lim);
      UnfoldingHasNoCycle(g, r, t);
    }
    if !CycleReachable(g, r) {
      var t :| Unfolds(g, r, t);
      all, items := Positions(t), ItemPositions(t);
      TreeByPosition(g, r, t, lim);
      forall u | Unfolds(g, r, u) ensures u == t {
        UnfoldingIsUnique(g, r, t, u);
      }
    }
  }

  lemma TreeByPosition(g: Graph, r: Ref, t: Tree, lim: Limits)
    requires Unfolds(g, r, t)
    ensures Listed(g, r, Positions(t), ItemPositions(t))
    ensures Valid(t, lim) <==>
              && (forall a | a in Positions(t) :: FineAt(g, r, a, lim))
              && (lim.maxDepth.Some? ==> forall a | a in Positions(t) :: |a| <= lim.maxDepth.value)
              && (lim.maxNodes.Some? ==> |Positions(t)| <= lim.maxNodes.value)
              && (lim.maxItems.Some? ==> |ItemPositions(t)| <= lim.maxItems.value)
  {
    UnfoldingIsListed(g, r, t);
    PositionsCount(t);
    ItemPositionsCount(t);
    LegalIffFine(g, r, t, lim);
    DepthByPosition(t, lim);
  }

  lemma UnfoldingIsListed(g: Graph, r: Ref, t: Tree)
    requires Unfolds(g, r, t)
    ensures Listed(g, r, Positions(t), ItemPositions(t))
  {
    forall a ensures a in Positions(t) <==> ValueAt(g, r, a).Some? {
      PositionsOfUnfolding(g, r, t, a);
    }
    forall a ensures a in ItemPositions(t) <==> ItemAt(g, r, a) {
      PositionsOfUnfolding(g, r, t, a);
    }
  }

  lemma LegalIffFine(g: Graph, r: Ref, t: Tree, lim: Limits)
    requires Unfolds(g, r, t) && Listed(g, r, Positions(t), ItemPositions(t))
    ensures ValuesLegal(t, lim) <==> forall a | a in Positions(t) :: FineAt(g, r, a, lim)
  {
    if ValuesLegal(t, lim) {
      forall a | a in Positions(t) ensures FineAt(g, r, a, lim) {
        LegalIsFine(g, r, t, lim, a);
      }
    }
    if AllFine(g, r, lim) {
      FineIsLegal(g, r, t, lim);
    }
  }

  lemma DepthByPosition(t: Tree, lim: Limits)
    ensures Within(Depth(t), lim.maxDepth) <==>
              (lim.maxDepth.Some? ==> forall a | a in Positions(t) :: |a| <= lim.maxDepth.value)
  {
    var longest := DeepestPosition(t);
    forall a | a in Positions(t) ensures |a| <= Depth(t) {
      DepthIsLongest(t, a);
    }
  }

  // ---------- the explicit stack, top first ----------

  datatype Entry = Entry(ref: Ref, depth: nat, leaving: bool)

  /** The containers that the walk has entered and not left, outermost first. */
  function Spine(stack: seq<Entry>): seq<Ref> {
    if stack == [] then []
    else if stack[0].leaving then Spine(stack[1..]) + [stack[0].ref]
    else Spine(stack[1..])
  }

  /** Each entry is the root or a child of the innermost container below it, at the matching depth. */
  ghost predicate Linked(g: Graph, root: Ref, stack: seq<Entry>) {
    stack != [] ==>
      var e, spine := stack[0], Spine(stack[1..]);
      && Linked(g, root, stack[1..])
      && e.ref < |g| && e.depth == |spine| && (e.leaving ==> Container(g[e.ref]))
      && (if spine == [] then e.ref == root else spine[|spine| - 1] < |g| && e.ref in Children(g[spine[|spine| - 1]]))
  }

  ghost function VisitStack(g: Graph, root: Ref, stack: seq<Entry>, ru: Option<Limits>): Option<Totals>
    requires Closed(g) && Linked(g, root, stack)
  {
    if stack == [] then Some(Totals(0, 0))
    else if stack[0].leaving then VisitStack(g, root, stack[1..], ru)
    else Plus(Visit(g, stack[0].ref, Elements(Spine(stack[1..])), stack[0].depth, ru),
      VisitStack(g, root, stack[1..], ru))
  }

  /** How many entries the walk will still take from its stack. */
  ghost function Steps(g: Graph, r: Ref, active: set<Ref>): nat
    requires Closed(g) && r < |g|
    decreases Unseen(g, active), 0
  {
    if !Container(g[r]) || r in active then 1
    else
      assert InGraph(g, r);
      2 + StepsOf(g, Children(g[r]), active + {r})
  }

  ghost function StepsOf(g: Graph, rs: seq<Ref>, active: set<Ref>): nat
    requires Closed(g) && forall i | 0 <= i < |rs| :: rs[i] < |g|
    decreases Unseen(g, active), 1 + |rs|
  {
    if rs == [] then 0 else Steps(g, rs[0], active) + StepsOf(g, rs[1..], active)
  }

  ghost function StackSteps(g: Graph, root: Ref, stack: seq<Entry>): nat
    requires Closed(g) && Linked(g, root, stack)
  {
    if stack == [] then 0
    else
      var top := if stack[0].leaving then 1 else Steps(g, stack[0].ref, Elements(Spine(stack[1..])));
      top + StackSteps(g, root, stack[1..])
  }

  function Pushed(rs: seq<Ref>, depth: nat): seq<Entry> {
    if rs == [] then [] else [Entry(rs[0], depth, false)] + Pushed(rs[1..], depth)
  }

  ghost predicate ChildrenOfTop(g: Graph, rs: seq<Ref>, spine: seq<Ref>) {
    && spine != [] && spine[|spine| - 1] < |g|
    && forall i | 0 <= i < |rs| :: rs[i] < |g| && rs[i] in Children(g[spine[|spine| - 1]])
  }

  /** One pushed entry. */
  lemma PushOne(g: Graph, root: Ref, r: Ref, stack: seq<Entry>, ru: Option<Limits>)
    requires Closed(g) && Linked(g, root, stack) && ChildrenOfTop(g, [r], Spine(stack))
    ensures var pushed := [Entry(r, |Spine(stack)|, false)] + stack;
            && Spine(pushed) == Spine(stack) && Linked(g, root, pushed)
            && VisitStack(g, root, pushed, ru) ==
                 Plus(Visit(g, r, Elements(Spine(stack)), |Spine(stack)|, ru), VisitStack(g, root, stack, ru))
            && StackSteps(g, root, pushed) == Steps(g, r, Elements(Spine(stack))) + StackSteps(g, root, stack)
  {
    var pushed := [Entry(r, |Spine(stack)|, false)] + stack;
    assert pushed[1..] == stack && pushed[0] == Entry(r, |Spine(stack)|, false);
    assert [r][0] == r;
  }

  /** Pushing children: the stack still hangs together, and its totals and its steps grow by theirs. */
  ghost predicate PushedOnto(g: Graph, root: Ref, rs: seq<Ref>, below: seq<Entry>, stack: seq<Entry>,
                             ru: Option<Limits>)
    requires Closed(g) && Linked(g, root, below) && forall i | 0 <= i < |rs| :: rs[i] < |g|
  {
    var active := Elements(Spine(below));
    && Spine(stack) == Spine(below) && Linked(g, root, stack)
    && VisitStack(g, root, stack, ru)
      == Plus(VisitAll(g, rs, active, |Spine(below)|, ru), VisitStack(g, root, below, ru))
    && StackSteps(g, root, stack) == StepsOf(g, rs, active) + StackSteps(g, root, below)
  }

  lemma PushStep(g: Graph, root: Ref, rs: seq<Ref>, below: seq<Entry>, stack: seq<Entry>, ru: Option<Limits>)
    requires Closed(g) && Linked(g, root, below) && rs != [] && ChildrenOfTop(g, rs, Spine(below))
    requires PushedOnto(g, root, rs[1..], below, stack, ru)
    ensures PushedOnto(g, root, rs, below, [Entry(rs[0], |Spine(below)|, false)] + stack, ru)
  {
    var active, d := Elements(Spine(below)), |Spine(below)|;
    PushOne(g, root, rs[0], stack, ru);
    SumsOfFirst(g, rs, active, d, ru);
    PlusIsAssociative(Visit(g, rs[0], active, d, ru), VisitAll(g, rs[1..], active, d, ru),
      VisitStack(g, root, below, ru));
  }

  lemma PlusIsAssociative(a: Option<Totals>, b: Option<Totals>, c: Option<Totals>)
    ensures Plus(a, Plus(b, c)) == Plus(Plus(a, b), c)
  {
  }

  lemma SumsOfFirst(g: Graph, rs: seq<Ref>, active: set<Ref>, depth: nat, ru: Option<Limits>)
    requires Closed(g) && rs != [] && forall i | 0 <= i < |rs| :: rs[i] < |g|
    ensures VisitAll(g, rs, active, depth, ru)
            == Plus(Visit(g, rs[0], active, depth, ru), VisitAll(g, rs[1..], active, depth, ru))
    ensures StepsOf(g, rs, active) == Steps(g, rs[0], active) + StepsOf(g, rs[1..], active)
  {
  }

  lemma PushedFirst(rs: seq<Ref>, depth: nat, below: seq<Entry>)
    requires rs != []
    ensures Pushed(rs, depth) + below == [Entry(rs[0], depth, false)] + (Pushed(rs[1..], depth) + below)
  {
  }

  lemma PushedAt(rs: seq<Ref>, i: nat, depth: nat, below: seq<Entry>)
    requires i < |rs|
    ensures Pushed(rs[i..], depth) + below == [Entry(rs[i], depth, false)] + (Pushed(rs[i + 1..], depth) + below)
  {
    PushedFirst(rs[i..], depth, below);
    assert rs[i..][1..] == rs[i + 1..];
  }

  lemma {:induction false} PushChildren(g: Graph, root: Ref, rs: seq<Ref>, below: seq<Entry>, ru: Option<Limits>)
    requires Closed(g) && Linked(g, root, below) && ChildrenOfTop(g, rs, Spine(below))
    ensures PushedOnto(g, root, rs, below, Pushed(rs, |Spine(below)|) + below, ru)
  {
    var d := |Spine(below)|;
    if rs == [] {
      assert Pushed(rs, d) + below == below;
    } else {
      PushChildren(g, root, rs[1..], below, ru);
      PushStep(g, root, rs, below, Pushed(rs[1..], d) + below, ru);
      PushedFirst(rs, d, below);
    }
  }

  /** The entered containers and the next value form a path from the root. */
  lemma {:induction false} SpineIsPath(g: Graph, root: Ref, stack: seq<Entry>)
    requires Linked(g, root, stack)
    ensures Path(g, Spine(stack)) && (Spine(stack) != [] ==> Spine(stack)[0] == root)
    ensures stack != [] ==>
              Path(g, Spine(stack[1..]) + [stack[0].ref]) && (Spine(stack[1..]) + [stack[0].ref])[0] == root
  {
    if stack != [] {
      SpineIsPath(g, root, stack[1..]);
      var spine := Spine(stack[1..]);
      var p := spine + [stack[0].ref];
      forall i | 0 <= i < |p| - 1 ensures p[i + 1] in Children(g[p[i]]) {
        if i < |spine| - 1 {
          assert spine[i + 1] in Children(g[spine[i]]);
        }
      }
    }
  }

  /** A leaving mark makes its container the innermost one. */
  lemma MarkStep(g: Graph, root: Ref, stack: seq<Entry>, below: seq<Entry>, ru: Option<Limits>)
    requires Closed(g) && Linked(g, root, stack) && stack != [] && !stack[0].leaving && Container(g[stack[0].ref])
    requires below == [Entry(stack[0].ref, stack[0].depth, true)] + stack[1..]
    ensures Linked(g, root, below) && Spine(below) == Spine(stack[1..]) + [stack[0].ref]
            && |Spine(below)| == stack[0].depth + 1
    ensures VisitStack(g, root, below, ru) == VisitStack(g, root, stack[1..], ru)
    ensures StackSteps(g, root, below) == 1 + StackSteps(g, root, stack[1..])
    ensures Elements(Spine(below)) == Elements(Spine(stack[1..])) + {stack[0].ref}
    ensures ChildrenOfTop(g, Children(g[stack[0].ref]), Spine(below))
  {
    assert below[1..] == stack[1..];
  }

  /** What an unentered container on top contributes. */
  lemma TopOfStack(g: Graph, root: Ref, stack: seq<Entry>, ru: Option<Limits>)
    requires Closed(g) && Linked(g, root, stack) && stack != [] && !stack[0].leaving && Container(g[stack[0].ref])
    requires stack[0].ref !in Spine(stack[1..]) && KeysOk(g, g[stack[0].ref], ru) && DepthOk(stack[0].depth, ru)
    ensures var e, below := stack[0], Elements(Spine(stack[1..])) + {stack[0].ref};
            && VisitStack(g, root, stack, ru) ==
                 Plus(Plus(Some(Own(g[e.ref])), VisitAll(g, Children(g[e.ref]), below, e.depth + 1, ru)),
                   VisitStack(g, root, stack[1..], ru))
            && StackSteps(g, root, stack) == 2 + StepsOf(g, Children(g[e.ref]), below) + StackSteps(g, root, stack[1..])
  {
  }

  /** Replacing a container by its children and a leaving mark. */
  lemma EnterStep(g: Graph, root: Ref, stack: seq<Entry>, next: seq<Entry>, ru: Option<Limits>)
    requires Closed(g) && Linked(g, root, stack) && stack != [] && !stack[0].leaving && Container(g[stack[0].ref])
    requires stack[0].ref !in Spine(stack) && KeysOk(g, g[stack[0].ref], ru) && DepthOk(stack[0].depth, ru)
    requires var e := stack[0];
             next == Pushed(Children(g[e.ref]), e.depth + 1) + ([Entry(e.ref, e.depth, true)] + stack[1..])
    ensures Linked(g, root, next) && Spine(next) == Spine(stack) + [stack[0].ref]
    ensures VisitStack(g, root, stack, ru) == Plus(Some(Own(g[stack[0].ref])), VisitStack(g, root, next, ru))
    ensures StackSteps(g, root, next) < StackSteps(g, root, stack)
  {
    var e, spine := stack[0], Spine(stack[1..]);
    var below := [Entry(e.ref, e.depth, true)] + stack[1..];
    MarkStep(g, root, stack, below, ru);
    PushChildren(g, root, Children(g[e.ref]), below, ru);
    TopOfStack(g, root, stack, ru);
    PlusIsAssociative(Some(Own(g[e.ref])), VisitAll(g, Children(g[e.ref]), Elements(spine) + {e.ref}, e.depth + 1, ru),
                      VisitStack(g, root, stack[1..], ru));
  }

  function LeafReason(n: Node, lim: Limits): (r: Option<Reason>)
    ensures r.None? <==> LeafLegal(n, lim)
  {
    match n
    case Int(bits) => if Within(bits, lim.maxIntegerBits) then None else Some(IntegerLimit)
    case Float(finite) => if finite then None else Some(NonFinite)
    case Text(utf8) =>
      if utf8.None? then Some(BadUnicode) else if Within(utf8.value, lim.maxStringBytes) then None
        else Some(StringLimit)
    case Other => Some(BadType)
    case _ => None
  }

  /** Pushes the elements of a list last to first. */
  method PushItems(rs: seq<Ref>, depth: nat, below: seq<Entry>) returns (stack: seq<Entry>)
    ensures stack == Pushed(rs, depth) + below
  {
    stack := below;
    var i := |rs|;
    assert Pushed(rs[i..], depth) + below == below;
    while i > 0
      invariant 0 <= i <= |rs| && stack == Pushed(rs[i..], depth) + below
    {
      PushedAt(rs, i - 1, depth, below);
      stack := [Entry(rs[i - 1], depth, false)] + stack;
      i := i - 1;
    }
    assert rs[0..] == rs;
  }

  /** Pushes the pairs of an object last to first, each key above its value, refusing a key that is not text. */
  method PushPairs(g: Graph, rs: seq<Ref>, depth: nat, below: seq<Entry>) returns (ok: bool, stack: seq<Entry>)
    requires |rs| % 2 == 0 && forall i | 0 <= i < |rs| :: rs[i] < |g|
    ensures ok <==> forall k | 0 <= k < |rs| && k % 2 == 0 :: g[rs[k]].Text?
    ensures ok ==> stack == Pushed(rs, depth) + below
  {
    stack := below;
    var i := |rs|;
    assert Pushed(rs[i..], depth) + below == below;
    while i > 0
      invariant 0 <= i <= |rs| && i % 2 == 0 && stack == Pushed(rs[i..], depth) + below
      invariant forall k | i <= k < |rs| && k % 2 == 0 :: g[rs[k]].Text?
    {
      var key, item := rs[i - 2], rs[i - 1];
      if !g[key].Text? {
        return false, stack;
      }
      PushedAt(rs, i - 1, depth, below);
      PushedAt(rs, i - 2, depth, below);
      stack := [Entry(key, depth, false)] + ([Entry(item, depth, false)] + stack);
      i := i - 2;
    }
    assert rs[0..] == rs;
    ok := true;
  }

  /** Pushes the children of a container, refusing a key that is not text. */
  method PushAll(g: Graph, n: Node, depth: nat, below: seq<Entry>) returns (ok: bool, stack: seq<Entry>)
    requires Container(n) && (n.Object? ==> |n.members| % 2 == 0)
    requires forall i | 0 <= i < |Children(n)| :: Children(n)[i] < |g|
    ensures ok <==> !BadKeyIn(g, n)
    ensures ok ==> stack == Pushed(Children(n), depth) + below
  {
    if n.List? {
      stack := PushItems(n.items, depth, below);
      ok := true;
    } else {
      assert Children(n) == n.members;
      ok, stack := PushPairs(g, n.members, depth, below);
    }
  }

  /** What the loop keeps: the active set is the path, and what was counted plus what is still on the
      stack is the walk of the whole value. */
  ghost predicate Progress(g: Graph, root: Ref, whole: Option<Totals>, stack: seq<Entry>, active: set<Ref>, items: nat,
                           nodes: nat, ru: Option<Limits>)
    requires Closed(g) && root < |g|
  {
    && OnPath(g, root, stack, active)
    && Counted(whole, items, nodes, VisitStack(g, root, stack, ru))
  }

  ghost predicate OnPath(g: Graph, root: Ref, stack: seq<Entry>, active: set<Ref>) {
    Linked(g, root, stack) && active == Elements(Spine(stack)) && !Repeats(Spine(stack))
  }

  ghost predicate Counted(whole: Option<Totals>, items: nat, nodes: nat, left: Option<Totals>) {
    nodes >= 1 && whole == Plus(Some(Totals(items, nodes - 1)), left)
  }

  lemma CountOwn(whole: Option<Totals>, items: nat, nodes: nat, left: Option<Totals>, own: Totals, next: Option<Totals>)
    requires Counted(whole, items, nodes, left) && left == Plus(Some(own), next)
    ensures Counted(whole, items + own.items, nodes + own.nodes, next)
  {
  }

  lemma LeavingKeepsProgress(g: Graph, root: Ref, whole: Option<Totals>, stack: seq<Entry>, active: set<Ref>,
                             items: nat, nodes: nat, ru: Option<Limits>)
    requires Closed(g) && root < |g| && Progress(g, root, whole, stack, active, items, nodes, ru) && stack != []
             && stack[0].leaving
    ensures stack[0].ref in active && Progress(g, root, whole, stack[1..], active - {stack[0].ref}, items, nodes, ru)
    ensures StackSteps(g, root, stack[1..]) < StackSteps(g, root, stack)
  {
    LeaveStep(Spine(stack[1..]), stack[0].ref);
  }

  lemma LeafKeepsProgress(g: Graph, root: Ref, whole: Option<Totals>, stack: seq<Entry>, active: set<Ref>, items: nat,
                          nodes: nat, ru: Option<Limits>)
    requires Closed(g) && root < |g| && Progress(g, root, whole, stack, active, items, nodes, ru) && stack != []
             && !stack[0].leaving
    requires !Container(g[stack[0].ref]) && LeafOk(g[stack[0].ref], ru) && DepthOk(stack[0].depth, ru)
    ensures Progress(g, root, whole, stack[1..], active, items, nodes, ru)
    ensures StackSteps(g, root, stack[1..]) < StackSteps(g, root, stack)
  {
  }

  lemma EnteredPath(g: Graph, root: Ref, stack: seq<Entry>, next: seq<Entry>, active: set<Ref>)
    requires OnPath(g, root, stack, active) && stack != [] && stack[0].ref !in active
    requires Linked(g, root, next) && Spine(next) == Spine(stack) + [stack[0].ref]
    ensures OnPath(g, root, next, active + {stack[0].ref})
  {
    EnterKeepsDistinct(Spine(stack), stack[0].ref);
  }

  /** Entering, on what `EnterStep` says of the next stack. */
  lemma EnteredProgress(g: Graph, root: Ref, whole: Option<Totals>, stack: seq<Entry>, next: seq<Entry>,
                        active: set<Ref>, items: nat, nodes: nat, own: Totals, ru: Option<Limits>)
    requires Closed(g) && root < |g| && Progress(g, root, whole, stack, active, items, nodes, ru) && stack != []
             && !stack[0].leaving
    requires stack[0].ref !in active && Linked(g, root, next) && Spine(next) == Spine(stack) + [stack[0].ref]
    requires VisitStack(g, root, stack, ru) == Plus(Some(own), VisitStack(g, root, next, ru))
    ensures Progress(g, root, whole, next, active + {stack[0].ref}, items + own.items, nodes + own.nodes, ru)
  {
    EnteredPath(g, root, stack, next, active);
    CountOwn(whole, items, nodes, VisitStack(g, root, stack, ru), own, VisitStack(g, root, next, ru));
  }

  ghost predicate EnteredStack(g: Graph, stack: seq<Entry>, next: seq<Entry>) {
    && stack != [] && !stack[0].leaving && stack[0].ref < |g| && Container(g[stack[0].ref])
    && next == Pushed(Children(g[stack[0].ref]), stack[0].depth + 1)
      + ([Entry(stack[0].ref, stack[0].depth, true)] + stack[1..])
  }

  lemma EnteringKeepsProgress(g: Graph, root: Ref, whole: Option<Totals>, stack: seq<Entry>, next: seq<Entry>,
                              active: set<Ref>, items: nat,
                              nodes: nat, ru: Option<Limits>)
    requires Closed(g) && root < |g| && Progress(g, root, whole, stack, active, items, nodes, ru)
             && EnteredStack(g, stack, next)
    requires stack[0].ref !in active && KeysOk(g, g[stack[0].ref], ru) && DepthOk(stack[0].depth, ru)
    ensures var own := Own(g[stack[0].ref]);
            Progress(g, root, whole, next, active + {stack[0].ref}, items + own.items, nodes + own.nodes, ru)
  {
    EnterStep(g, root, stack, next, ru);
    EnteredProgress(g, root, whole, stack, next, active, items, nodes, Own(g[stack[0].ref]), ru);
  }

  lemma EnteringShortens(g: Graph, root: Ref, stack: seq<Entry>, next: seq<Entry>, active: set<Ref>)
    requires Closed(g) && root < |g| && OnPath(g, root, stack, active) && EnteredStack(g, stack, next)
             && stack[0].ref !in active
    ensures Linked(g, root, next) && StackSteps(g, root, next) < StackSteps(g, root, stack)
  {
    EnterStep(g, root, stack, next, None);
  }

  /** A value that the walk stops at makes the whole value unacceptable. */
  lemma StoppingMeansRejecting(g: Graph, root: Ref, whole: Option<Totals>, stack: seq<Entry>, active: set<Ref>,
                               items: nat, nodes: nat,
                               lim: Limits)
    requires Closed(g) && root < |g| && Progress(g, root, whole, stack, active, items, nodes, Some(lim))
    requires stack != [] && !stack[0].leaving
    requires var e := stack[0];
             || !Within(e.depth, lim.maxDepth)
             || (!Container(g[e.ref]) && !LeafLegal(g[e.ref], lim))
             || (Container(g[e.ref]) &&
                   (e.ref in active || BadKeyIn(g, g[e.ref])
                    || !Within(items + Own(g[e.ref]).items, lim.maxItems)
                      || !Within(nodes + Own(g[e.ref]).nodes, lim.maxNodes)))
    ensures Decides(g, root, lim, whole) ==> !Accepts(g, root, lim)
  {
  }

  /** `whole` is what every unfolding of the value amounts to. */
  ghost predicate Measures(g: Graph, root: Ref, whole: Option<Totals>) {
    forall t | Unfolds(g, root, t) :: whole == Some(Totals(Items(t), Nodes(t) - 1))
  }

  /** What was counted is never more than the whole: the container on top belongs to every unfolding. */
  lemma CountedBelongs(g: Graph, root: Ref, whole: Option<Totals>, stack: seq<Entry>, active: set<Ref>, items: nat,
                       nodes: nat, t: Tree)
    requires Closed(g) && root < |g| && Progress(g, root, whole, stack, active, items, nodes, None)
    requires stack != [] && !stack[0].leaving && Container(g[stack[0].ref]) && Measures(g, root, whole)
             && Unfolds(g, root, t)
    ensures items + Own(g[stack[0].ref]).items <= Items(t) && nodes + Own(g[stack[0].ref]).nodes <= Nodes(t)
  {
  }

  /** The walk under the limits and the walk without any, at the same point. */
  ghost predicate InStep(g: Graph, root: Ref, wholes: (Option<Totals>, Option<Totals>), stack: seq<Entry>,
                         active: set<Ref>,
                         items: nat, nodes: nat, lim: Limits)
    requires Closed(g) && root < |g|
  {
    && Progress(g, root, wholes.0, stack, active, items, nodes, Some(lim))
      && Progress(g, root, wholes.1, stack, active, items, nodes, None)
    && Decides(g, root, lim, wholes.0) && Measures(g, root, wholes.1)
  }

  /**
    `validate_json`.  On every finite graph the loop ends; the active set is exactly the containers
    on the path from the root to the current value, so that leaving one always finds it there; the
    value is accepted exactly when it unfolds into a tree that the recursive definition allows; and a
    complaint is true.
  */
  method ValidateJson(g: Graph, root: Ref, lim: Limits) returns (r: Option<Reason>)
    requires Closed(g) && root < |g|
    ensures r.None? <==> Accepts(g, root, lim)
    ensures r.Some? ==> Explains(g, root, lim, r.value)
  {
    var nodes: nat, items: nat := 1, 0;
    ghost var wholes := StartsInStep(g, root, lim);
    if !Within(nodes, lim.maxNodes) {
      return Some(NodeLimit);
    }
    var active: set<Ref> := {};
    var stack := [Entry(root, 0, false)];
    while stack != []
      invariant InStep(g, root, wholes, stack, active, items, nodes, lim)
      invariant Within(items, lim.maxItems) && Within(nodes, lim.maxNodes)
      decreases StackSteps(g, root, stack)
    {
      if stack[0].leaving {
        LeavingKeepsProgress(g, root, wholes.0, stack, active, items, nodes, Some(lim));
        LeavingKeepsProgress(g, root, wholes.1, stack, active, items, nodes, None);
        active := active - {stack[0].ref};
        stack := stack[1..];
      } else {
        var stop, next, active', items', nodes' := Expand(g, root, wholes, stack, active, items, nodes, lim);
        if stop.Some? {
          return stop;
        }
        stack, active, items, nodes := next, active', items', nodes';
      }
    }
    EndsAccepted(g, root, wholes.0, active, items, nodes, lim);
    r := None;
  }

  lemma StartsInProgress(g: Graph, root: Ref, ru: Option<Limits>) returns (whole: Option<Totals>)
    requires Closed(g) && root < |g|
    ensures whole == Visit(g, root, {}, 0, ru) && Progress(g, root, whole, [Entry(root, 0, false)], {}, 0, 1, ru)
  {
    var stack := [Entry(root, 0, false)];
    assert stack[1..] == [] && Spine(stack) == [];
    whole := Visit(g, root, {}, 0, ru);
  }

  lemma StartsInStep(g: Graph, root: Ref, lim: Limits) returns (wholes: (Option<Totals>, Option<Totals>))
    requires Closed(g) && root < |g|
    ensures InStep(g, root, wholes, [Entry(root, 0, false)], {}, 0, 1, lim)
    ensures !Within(1, lim.maxNodes) ==> !Accepts(g, root, lim) && forall t :: !Within(Nodes(t), lim.maxNodes)
  {
    VisitDecides(g, root, lim);
    var strict := StartsInProgress(g, root, Some(lim));
    var lax := StartsInProgress(g, root, None);
    forall t | Unfolds(g, root, t) ensures lax == Some(Totals(Items(t), Nodes(t) - 1)) {
      VisitOfTree(g, root, t, {}, 0, None);
    }
    assert forall t: Tree :: Nodes(t) >= 1;
    wholes := (strict, lax);
  }

  lemma EndsAccepted(g: Graph, root: Ref, whole: Option<Totals>, active: set<Ref>, items: nat, nodes: nat, lim: Limits)
    requires Closed(g) && root < |g| && Progress(g, root, whole, [], active, items, nodes, Some(lim))
    requires Within(items, lim.maxItems) && Within(nodes, lim.maxNodes) && Decides(g, root, lim, whole)
    ensures Accepts(g, root, lim)
  {
  }

  /** One iteration of the loop on a value that is being entered: why to stop, or the next state. */
  method Expand(g: Graph, root: Ref, ghost wholes: (Option<Totals>, Option<Totals>), stack: seq<Entry>,
                active: set<Ref>,
                items: nat, nodes: nat, lim: Limits)
    returns (stop: Option<Reason>, next: seq<Entry>, active': set<Ref>, items': nat, nodes': nat)
    requires Closed(g) && root < |g| && InStep(g, root, wholes, stack, active, items, nodes, lim) && stack != []
             && !stack[0].leaving
    requires Within(items, lim.maxItems) && Within(nodes, lim.maxNodes)
    ensures stop.Some? ==> !Accepts(g, root, lim) && Explains(g, root, lim, stop.value)
    ensures stop.None? ==>
              && InStep(g, root, wholes, next, active', items', nodes', lim)
              && StackSteps(g, root, next) < StackSteps(g, root, stack)
    ensures stop.None? ==> Within(items', lim.maxItems) && Within(nodes', lim.maxNodes)
  {
    var e, n := stack[0], g[stack[0].ref];
    next, active', items', nodes' := stack[1..], active, items, nodes;
    if Within(e.depth, lim.maxDepth) && Container(n) {
      stop, next := ExpandContainer(g, root, wholes, stack, active, items, nodes, lim);
      active', items', nodes' := active + {e.ref}, items + Own(n).items, nodes + Own(n).nodes;
      return;
    }
    stop := if !Within(e.depth, lim.maxDepth) then Some(DepthLimit) else LeafReason(n, lim);
    if stop.None? {
      LeafKeepsProgress(g, root, wholes.0, stack, active, items, nodes, Some(lim));
      LeafKeepsProgress(g, root, wholes.1, stack, active, items, nodes, None);
    } else {
      StoppingMeansRejecting(g, root, wholes.0, stack, active, items, nodes, lim);
      Explained(g, root, stack, lim, stop.value);
    }
  }

  method ExpandContainer(g: Graph, root: Ref, ghost wholes: (Option<Totals>, Option<Totals>), stack: seq<Entry>,
                         active: set<Ref>,
                         items: nat, nodes: nat, lim: Limits)
    returns (stop: Option<Reason>, next: seq<Entry>)
    requires Closed(g) && root < |g| && InStep(g, root, wholes, stack, active, items, nodes, lim) && stack != []
             && !stack[0].leaving
    requires Container(g[stack[0].ref]) && Within(stack[0].depth, lim.maxDepth)
    ensures stop.Some? ==> !Accepts(g, root, lim) && Explains(g, root, lim, stop.value)
    ensures stop.None? ==> var own := Own(g[stack[0].ref]);
                           && InStep(g, root, wholes, next, active + {stack[0].ref}, items + own.items, nodes
                             + own.nodes, lim)
                           && StackSteps(g, root, next) < StackSteps(g, root, stack)
                           && Within(items + own.items, lim.maxItems) && Within(nodes + own.nodes, lim.maxNodes)
  {
    var e, n := stack[0], g[stack[0].ref];
    next, stop := stack, None;
    if !Within(items + Own(n).items, lim.maxItems) {
      TooMany(g, root, wholes.1, stack, active, items, nodes, lim);
      stop := Some(ItemLimit);
    } else if !Within(nodes + Own(n).nodes, lim.maxNodes) {
      TooMany(g, root, wholes.1, stack, active, items, nodes, lim);
      stop := Some(NodeLimit);
    } else if e.ref in active {
      CycleFound(g, root, stack);
      stop := Some(Cyclic);
    } else {
      var ok;
      ok, next := PushAll(g, n, e.depth + 1, [Entry(e.ref, e.depth, true)] + stack[1..]);
      if ok {
        EnteringKeepsProgress(g, root, wholes.0, stack, next, active, items, nodes, Some(lim));
        EnteringKeepsProgress(g, root, wholes.1, stack, next, active, items, nodes, None);
        EnteringShortens(g, root, stack, next, active);
        return;
      }
      stop := Some(BadKey);
    }
    StoppingMeansRejecting(g, root, wholes.0, stack, active, items, nodes, lim);
    Explained(g, root, stack, lim, stop.value);
  }

  /** Counts beyond a limit are beyond it in every unfolding. */
  lemma TooMany(g: Graph, root: Ref, whole: Option<Totals>, stack: seq<Entry>, active: set<Ref>, items: nat,
                nodes: nat, lim: Limits)
    requires Closed(g) && root < |g| && Progress(g, root, whole, stack, active, items, nodes, None)
    requires stack != [] && !stack[0].leaving && Container(g[stack[0].ref]) && Measures(g, root, whole)
    ensures !Within(items + Own(g[stack[0].ref]).items, lim.maxItems) ==> TooManyItems(g, root, lim)
    ensures !Within(nodes + Own(g[stack[0].ref]).nodes, lim.maxNodes) ==> TooManyNodes(g, root, lim)
  {
    forall t | Unfolds(g, root, t)
      ensures items + Own(g[stack[0].ref]).items <= Items(t) && nodes + Own(g[stack[0].ref]).nodes <= Nodes(t)
    {
      CountedBelongs(g, root, whole, stack, active, items, nodes, t);
    }
  }

  ghost predicate TooManyItems(g: Graph, root: Ref, lim: Limits) {
    lim.maxItems.Some? && forall t | Unfolds(g, root, t) :: Items(t) > lim.maxItems.value
  }

  ghost predicate TooManyNodes(g: Graph, root: Ref, lim: Limits) {
    lim.maxNodes.Some? && forall t | Unfolds(g, root, t) :: Nodes(t) > lim.maxNodes.value
  }

  /** There is a path `p` from the root to the value that `reason` complains about. */
  ghost predicate Faulty(g: Graph, root: Ref, lim: Limits, reason: Reason, p: seq<Ref>) {
    && |p| > 0 && p[0] == root && Path(g, p)
    && var n := g[p[|p| - 1]];
       match reason
       case DepthLimit => lim.maxDepth.Some? && |p| - 1 > lim.maxDepth.value
       case BadKey =>
         n.Object? && exists i | 0 <= i < |n.members| && i % 2 == 0 :: n.members[i] < |g| && !g[n.members[i]].Text?
       case IntegerLimit => n.Int? && lim.maxIntegerBits.Some? && n.bits > lim.maxIntegerBits.value
       case NonFinite => n.Float? && !n.finite
       case BadUnicode => n == Text(None)
       case StringLimit =>
         n.Text? && n.utf8.Some? && lim.maxStringBytes.Some? && n.utf8.value > lim.maxStringBytes.value
       case _ => reason == BadType && n.Other?
  }

  /** What each complaint says about the value.  A value with a cycle has no unfolding to be counted. */
  ghost predicate Explains(g: Graph, root: Ref, lim: Limits, reason: Reason) {
    match reason
    case Cyclic => CycleReachable(g, root)
    case ItemLimit => TooManyItems(g, root, lim)
    case NodeLimit => TooManyNodes(g, root, lim)
    case _ => exists p :: Faulty(g, root, lim, reason, p)
  }

  lemma Explained(g: Graph, root: Ref, stack: seq<Entry>, lim: Limits, reason: Reason)
    requires Linked(g, root, stack) && stack != [] && !stack[0].leaving
    requires var e := stack[0];
             match reason
             case Cyclic => CycleReachable(g, root)
             case ItemLimit => TooManyItems(g, root, lim)
             case NodeLimit => TooManyNodes(g, root, lim)
             case DepthLimit => !Within(e.depth, lim.maxDepth)
             case BadKey => BadKeyIn(g, g[e.ref])
             case _ => !Container(g[e.ref]) && LeafReason(g[e.ref], lim) == Some(reason)
    ensures Explains(g, root, lim, reason)
  {
    SpineIsPath(g, root, stack);
    var p := Spine(stack[1..]) + [stack[0].ref];
    if reason !in {Cyclic, ItemLimit, NodeLimit} {
      assert Faulty(g, root, lim, reason, p);
    }
  }

  lemma LeaveStep(spine: seq<Ref>, r: Ref)
    requires !Repeats(spine + [r])
    ensures r !in spine && !Repeats(spine) && Elements(spine + [r]) == Elements(spine) + {r}
  {
    var p := spine + [r];
    forall i | 0 <= i < |spine| ensures spine[i] != r {
      assert p[i] != p[|spine|];
    }
    forall i, j | 0 <= i < j < |spine| ensures spine[i] != spine[j] {
      assert p[i] != p[j];
    }
  }

  lemma EnterKeepsDistinct(spine: seq<Ref>, r: Ref)
    requires !Repeats(spine) && r !in spine
    ensures !Repeats(spine + [r]) && Elements(spine + [r]) == Elements(spine) + {r}
  {
  }

  lemma CycleFound(g: Graph, root: Ref, stack: seq<Entry>)
    requires Linked(g, root, stack) && stack != [] && !stack[0].leaving && stack[0].ref in Spine(stack)
    ensures CycleReachable(g, root)
  {
    SpineIsPath(g, root, stack);
    var spine := Spine(stack[1..]);
    var p := spine + [stack[0].ref];
    var i :| 0 <= i < |spine| && spine[i] == stack[0].ref;
    assert p[i] == p[|spine|];
    assert Repeats(p);
  }
}
