// Lowering a Python object graph to a tree of anchors and aliases
// (src/ffi/represent.rs, `Lower` and `name_anchors`).
//
// The callbacks that decide how an object renders are replaced by a fixed graph:
// an object either owns its node, stands for another object, or puts a tag on one.
module Lowering {
  import opened Wrappers
  import opened Seqs
  import opened Text

  const MAX_REPRESENT_DEPTH: nat := 1000

  // An object's identity (`id()`), the marker that `Lower` leaves on nodes.
  type Id = nat

  // What a node is, apart from its tag, its anchor and its children. The children
  // of a mapping are its keys and values in turn.
  datatype Shape = NullShape | ScalarShape(text: string) | SeqShape | MapShape

  datatype Obj =
    | Own(aliasable: bool, shape: Shape, tag: Option<string>, kids: seq<Id>)
    | Delegate(target: Id)
    | Wrap(mark: string, inner: Id)

  type Graph = map<Id, Obj>

  // Lowered nodes, over raw markers (`Node<Id>`) or anchor names (`Node<string>`).
  datatype Node<L> =
    | Alias(target: L)
    | Node(shape: Shape, tag: Option<string>, anchor: Option<L>, kids: seq<Node<L>>)

  datatype Error = TooDeep | RefersToItself | TagOnAlias | NestedTag

  predicate Closed(g: Graph) {
    forall id <- g ::
      match g[id]
      case Own(_, _, _, kids) => forall kid <- kids :: kid in g
      case Delegate(target) => target in g
      case Wrap(_, inner) => inner in g
  }

  // ----- The meaning of a graph: delegates are transparent, a wrapper adds its tag -----

  // The tag an object shows and the object whose content it shows.
  datatype Identity = Identity(tag: Option<string>, base: Id)

  // Follows at most `fuel` delegations and wrappers.
  function Head(g: Graph, id: Id, fuel: nat): (r: Option<Identity>)
    requires Closed(g) && id in g
    ensures r.Some? ==> r.value.base in g && g[r.value.base].Own?
    decreases fuel
  {
    match g[id]
    case Own(_, _, tag, _) => Some(Identity(tag, id))
    case Delegate(target) => if fuel == 0 then None else Head(g, target, fuel - 1)
    case Wrap(mark, inner) =>
      if fuel == 0 then None else Tagged(mark, Head(g, inner, fuel - 1))
  }

  // One node carries one tag: a tag on something already tagged has no meaning.
  function Tagged(mark: string, inner: Option<Identity>): Option<Identity> {
    match inner
    case Some(Identity(None, base)) => Some(Identity(Some(mark), base))
    case _ => None
  }

  lemma {:induction false} HeadIsStable(g: Graph, id: Id, fuel: nat, more: nat)
    requires Closed(g) && id in g
    requires Head(g, id, fuel).Some? && fuel <= more
    ensures Head(g, id, more) == Head(g, id, fuel)
    decreases fuel
  {
    match g[id]
    case Own(_, _, _, _) =>
    case Delegate(target) => HeadIsStable(g, target, fuel - 1, more - 1);
    case Wrap(_, inner) => HeadIsStable(g, inner, fuel - 1, more - 1);
  }

  // What an object shows once every delegation is followed, if that ever ends.
  ghost function IdentityOf(g: Graph, id: Id): (r: Option<Identity>)
    requires Closed(g) && id in g
    ensures r.Some? ==> r.value.base in g && g[r.value.base].Own?
  {
    if fuel: nat :| Head(g, id, fuel).Some? then Head(g, id, fuel) else None
  }

  lemma IdentityIsHead(g: Graph, id: Id, fuel: nat)
    requires Closed(g) && id in g
    requires Head(g, id, fuel).Some?
    ensures IdentityOf(g, id) == Head(g, id, fuel)
  {
    var f: nat :| Head(g, id, f).Some? && IdentityOf(g, id) == Head(g, id, f);
    HeadIsStable(g, id, f, f + fuel);
    HeadIsStable(g, id, fuel, f + fuel);
  }

  lemma IdentityOfDelegate(g: Graph, id: Id)
    requires Closed(g) && id in g && g[id].Delegate?
    ensures IdentityOf(g, id) == IdentityOf(g, g[id].target)
  {
    var target := g[id].target;
    if fuel: nat :| Head(g, target, fuel).Some? {
      IdentityIsHead(g, target, fuel);
      assert Head(g, id, fuel + 1) == Head(g, target, fuel);
      IdentityIsHead(g, id, fuel + 1);
    } else if fuel: nat :| Head(g, id, fuel).Some? {
      assert Head(g, target, fuel - 1).Some?;
    }
  }

  lemma IdentityOfWrap(g: Graph, id: Id)
    requires Closed(g) && id in g && g[id].Wrap?
    ensures IdentityOf(g, id) == Tagged(g[id].mark, IdentityOf(g, g[id].inner))
  {
    var inner := g[id].inner;
    if fuel: nat :| Head(g, id, fuel).Some? {
      IdentityIsHead(g, id, fuel);
      IdentityIsHead(g, inner, fuel - 1);
    } else if fuel: nat :| Head(g, inner, fuel).Some? {
      IdentityIsHead(g, inner, fuel);
      assert Head(g, id, fuel + 1) == Tagged(g[id].mark, Head(g, inner, fuel));
    }
  }

  // What each kind of object shows: its own tag and content, those of another object, or a tag
  // around content that has none.
  lemma ShownBy(g: Graph, id: Id)
    requires Closed(g) && id in g
    ensures g[id].Own? ==> IdentityOf(g, id) == Some(Identity(g[id].tag, id))
    ensures g[id].Delegate? ==> IdentityOf(g, id) == IdentityOf(g, g[id].target)
    ensures g[id].Wrap? ==>
              var inner := IdentityOf(g, g[id].inner);
              IdentityOf(g, id) ==
                if inner.Some? && inner.value.tag == None then Some(Identity(Some(g[id].mark), inner.value.base)) else None
  {
    match g[id]
    case Own(_, _, _, _) => IdentityIsHead(g, id, 0);
    case Delegate(_) => IdentityOfDelegate(g, id);
    case Wrap(_, _) => IdentityOfWrap(g, id);
  }

  // A finite look at a possibly infinite unfolding.
  datatype Tree = Cut | Lost | Tree(shape: Shape, tag: Option<string>, kids: seq<Tree>)

  ghost function UnfoldObject(g: Graph, id: Id, depth: nat): Tree
    requires Closed(g) && id in g
    decreases depth
  {
    if depth == 0 then Cut else
    match IdentityOf(g, id)
    case None => Lost
    case Some(Identity(tag, base)) =>
      var kids := g[base].kids;
      Tree(g[base].shape, tag,
           seq(|kids|, i requires 0 <= i < |kids| => UnfoldObject(g, kids[i], depth - 1)))
  }

  // ----- The meaning of a tree: an alias shows the node that bears its anchor -----

  // The first node, in document order, whose anchor is `mark`.
  function Find<L(==)>(n: Node<L>, mark: L): (r: Option<Node<L>>)
    ensures r.Some? ==> r.value.Node? && r.value.anchor == Some(mark)
    decreases n, 1
  {
    if n.Alias? then None
    else if n.anchor == Some(mark) then Some(n)
    else FindIn(n.kids, mark)
  }

  function FindIn<L(==)>(kids: seq<Node<L>>, mark: L): (r: Option<Node<L>>)
    ensures r.Some? ==> r.value.Node? && r.value.anchor == Some(mark)
    decreases kids, 0
  {
    if kids == [] then None
    else if Find(kids[0], mark).Some? then Find(kids[0], mark)
    else FindIn(kids[1..], mark)
  }

  function UnfoldNode<L(==)>(root: Node<L>, n: Node<L>, depth: nat): Tree
    decreases depth, if n.Alias? then 1 else 0
  {
    if depth == 0 then Cut else
    match n
    case Alias(target) =>
      (match Find(root, target)
       case None => Lost
       case Some(shown) => UnfoldNode(root, shown, depth))
    case Node(shape, tag, _, kids) =>
      Tree(shape, tag,
           seq(|kids|, i requires 0 <= i < |kids| => UnfoldNode(root, kids[i], depth - 1)))
  }

  // ----- When a tree stands for an object -----

  // Node by node, `n` shows what the object `id` shows; `names` says which object a
  // mark stands for.
  ghost predicate Shows<L(!new)>(g: Graph, n: Node<L>, id: Id, names: map<L, Id>)
    requires Closed(g) && id in g
    decreases n
  {
    match n
    case Alias(target) => SameObject(g, target, id, names)
    case Node(shape, tag, anchor, kids) =>
      && (anchor.Some? ==> SameObject(g, anchor.value, id, names))
      && var shown := IdentityOf(g, id);
      && shown.Some?
      && shown.value.tag == tag
      && g[shown.value.base].shape == shape
      && |g[shown.value.base].kids| == |kids|
      && forall i | 0 <= i < |kids| :: Shows(g, kids[i], g[shown.value.base].kids[i], names)
  }

  ghost predicate SameObject<L(!new)>(g: Graph, mark: L, id: Id, names: map<L, Id>)
    requires Closed(g) && id in g
  {
    mark in names && names[mark] in g && IdentityOf(g, names[mark]) == IdentityOf(g, id)
  }

  // Every alias in `n` names a node of `root`.
  predicate Resolved<L(==)>(root: Node<L>, n: Node<L>) {
    match n
    case Alias(target) => Find(root, target).Some?
    case Node(_, _, _, kids) => forall kid <- kids :: Resolved(root, kid)
  }

  lemma {:induction false} FoundShows<L(!new)>(
    g: Graph, root: Node<L>, n: Node<L>, id: Id, mark: L, names: map<L, Id>)
    requires Closed(g) && id in g
    requires Shows(g, n, id, names) && Resolved(root, n) && Find(n, mark).Some?
    ensures mark in names && names[mark] in g
    ensures Shows(g, Find(n, mark).value, names[mark], names)
    ensures Resolved(root, Find(n, mark).value)
    decreases n, 1
  {
    if n.anchor != Some(mark) {
      FoundInShows(g, root, n.kids, g[IdentityOf(g, id).value.base].kids, mark, names);
    }
  }

  lemma {:induction false} FoundInShows<L(!new)>(
    g: Graph, root: Node<L>, kids: seq<Node<L>>, ids: seq<Id>, mark: L, names: map<L, Id>)
    requires Closed(g) && |kids| == |ids| && FindIn(kids, mark).Some?
    requires forall i | 0 <= i < |kids| :: ids[i] in g && Shows(g, kids[i], ids[i], names)
    requires forall kid <- kids :: Resolved(root, kid)
    ensures mark in names && names[mark] in g
    ensures Shows(g, FindIn(kids, mark).value, names[mark], names)
    ensures Resolved(root, FindIn(kids, mark).value)
    decreases kids, 0
  {
    if Find(kids[0], mark).Some? {
      FoundShows(g, root, kids[0], ids[0], mark, names);
    } else {
      FoundInShows(g, root, kids[1..], ids[1..], mark, names);
    }
  }

  // A tree that shows an object, with every alias resolved, unfolds like the object to
  // every depth.
  lemma {:induction false} ShownUnfolds<L(!new)>(
    g: Graph, root: Node<L>, rootId: Id, n: Node<L>, id: Id, names: map<L, Id>, depth: nat)
    requires Closed(g) && rootId in g && id in g
    requires Shows(g, root, rootId, names) && Resolved(root, root)
    requires Shows(g, n, id, names) && Resolved(root, n)
    ensures UnfoldNode(root, n, depth) == UnfoldObject(g, id, depth)
    decreases depth, if n.Alias? then 1 else 0
  {
    if depth > 0 {
      match n
      case Alias(target) =>
        FoundShows(g, root, root, rootId, target, names);
        var shown := Find(root, target).value;
        ShownUnfolds(g, root, rootId, shown, names[target], names, depth);
        assert UnfoldObject(g, names[target], depth) == UnfoldObject(g, id, depth);
      case Node(_, _, _, kids) =>
        var ids := g[IdentityOf(g, id).value.base].kids;
        forall i | 0 <= i < |kids|
          ensures UnfoldNode(root, kids[i], depth - 1) == UnfoldObject(g, ids[i], depth - 1)
        {
          ShownUnfolds(g, root, rootId, kids[i], ids[i], names, depth - 1);
        }
    }
  }

  // ----- Scoping: which labels a tree defines and uses, and in which order -----

  function Anchors<L(==)>(n: Node<L>): set<L>
    decreases n, 1
  {
    if n.Alias? then {} else OwnAnchor(n) + AnchorsIn(n.kids)
  }

  function OwnAnchor<L(==)>(n: Node<L>): set<L>
    requires n.Node?
  {
    MarkerSet(n.anchor)
  }

  function MarkerSet<L(==)>(marker: Option<L>): set<L> {
    if marker.Some? then {marker.value} else {}
  }

  function AnchorsIn<L(==)>(kids: seq<Node<L>>): set<L>
    decreases kids, 0
  {
    if kids == [] then {} else Anchors(kids[0]) + AnchorsIn(kids[1..])
  }

  function Targets<L(==)>(n: Node<L>): set<L>
    decreases n, 1
  {
    if n.Alias? then {n.target} else TargetsIn(n.kids)
  }

  function TargetsIn<L(==)>(kids: seq<Node<L>>): set<L>
    decreases kids, 0
  {
    if kids == [] then {} else Targets(kids[0]) + TargetsIn(kids[1..])
  }

  // In document order, `n` only uses labels of `scope` or labels it has already defined,
  // and never defines one a second time.
  predicate Scoped<L(==)>(n: Node<L>, scope: set<L>)
    decreases n, 1
  {
    if n.Alias? then n.target in scope
    else OwnAnchor(n) !! scope && ScopedIn(n.kids, scope + OwnAnchor(n))
  }

  predicate ScopedIn<L(==)>(kids: seq<Node<L>>, scope: set<L>)
    decreases kids, 0
  {
    kids != [] ==> Scoped(kids[0], scope) && ScopedIn(kids[1..], scope + Anchors(kids[0]))
  }

  lemma {:induction false} AppendKid<L>(kids: seq<Node<L>>, kid: Node<L>, scope: set<L>)
    requires ScopedIn(kids, scope) && Scoped(kid, scope + AnchorsIn(kids))
    ensures ScopedIn(kids + [kid], scope)
    ensures AnchorsIn(kids + [kid]) == AnchorsIn(kids) + Anchors(kid)
    ensures TargetsIn(kids + [kid]) == TargetsIn(kids) + Targets(kid)
  {
    if kids == [] {
      assert scope + AnchorsIn(kids) == scope;
      assert scope + Anchors(kid) == scope + Anchors(kid) + {};
    } else {
      assert (kids + [kid])[1..] == kids[1..] + [kid];
      assert scope + AnchorsIn(kids) == scope + Anchors(kids[0]) + AnchorsIn(kids[1..]);
      AppendKid(kids[1..], kid, scope + Anchors(kids[0]));
    }
  }

  // A mark that is never used can leave the scope: this is what makes untracking a
  // delegated or tagged object sound.
  lemma {:induction false} Untrack<L>(n: Node<L>, scope: set<L>, mark: L)
    requires Scoped(n, scope + {mark}) && mark !in Targets(n)
    ensures Scoped(n, scope)
    ensures mark !in scope ==> mark !in Anchors(n)
    decreases n, 1
  {
    if n.Node? {
      assert scope + {mark} + OwnAnchor(n) == scope + OwnAnchor(n) + {mark};
      UntrackIn(n.kids, scope + OwnAnchor(n), mark);
    }
  }

  lemma {:induction false} UntrackIn<L>(kids: seq<Node<L>>, scope: set<L>, mark: L)
    requires ScopedIn(kids, scope + {mark}) && mark !in TargetsIn(kids)
    ensures ScopedIn(kids, scope)
    ensures mark !in scope ==> mark !in AnchorsIn(kids)
    decreases kids, 0
  {
    if kids != [] {
      Untrack(kids[0], scope, mark);
      assert scope + {mark} + Anchors(kids[0]) == scope + Anchors(kids[0]) + {mark};
      UntrackIn(kids[1..], scope + Anchors(kids[0]), mark);
    }
  }

  lemma {:induction false} TargetsAreDefined<L>(n: Node<L>, scope: set<L>)
    requires Scoped(n, scope)
    ensures Targets(n) <= scope + Anchors(n)
    decreases n, 1
  {
    if n.Node? {
      TargetsInAreDefined(n.kids, scope + OwnAnchor(n));
    }
  }

  lemma {:induction false} TargetsInAreDefined<L>(kids: seq<Node<L>>, scope: set<L>)
    requires ScopedIn(kids, scope)
    ensures TargetsIn(kids) <= scope + AnchorsIn(kids)
    decreases kids, 0
  {
    if kids != [] {
      TargetsAreDefined(kids[0], scope);
      TargetsInAreDefined(kids[1..], scope + Anchors(kids[0]));
    }
  }

  lemma {:induction false} DefinedIsFound<L>(n: Node<L>, mark: L)
    requires mark in Anchors(n)
    ensures Find(n, mark).Some?
    decreases n, 1
  {
    if n.anchor != Some(mark) {
      DefinedIsFoundIn(n.kids, mark);
    }
  }

  lemma {:induction false} DefinedIsFoundIn<L>(kids: seq<Node<L>>, mark: L)
    requires mark in AnchorsIn(kids)
    ensures FindIn(kids, mark).Some?
    decreases kids, 0
  {
    if mark in Anchors(kids[0]) {
      DefinedIsFound(kids[0], mark);
    } else {
      DefinedIsFoundIn(kids[1..], mark);
    }
  }

  lemma {:induction false} KidTargets<L>(kids: seq<Node<L>>, i: nat)
    requires i < |kids|
    ensures Targets(kids[i]) <= TargetsIn(kids)
  {
    if i > 0 {
      KidTargets(kids[1..], i - 1);
    }
  }

  lemma {:induction false} DefinedIsResolved<L>(root: Node<L>, n: Node<L>)
    requires Targets(n) <= Anchors(root)
    ensures Resolved(root, n)
  {
    match n
    case Alias(target) => DefinedIsFound(root, target);
    case Node(_, _, _, kids) =>
      forall i | 0 <= i < |kids| ensures Resolved(root, kids[i]) {
        KidTargets(kids, i);
        DefinedIsResolved(root, kids[i]);
      }
  }

  // ----- What scoping says of the document order -----

  // The anchors and aliases of a tree, in the order they appear in the document.
  datatype Mark<L> = Define(name: L) | Use(name: L)

  function Marks<L>(n: Node<L>): seq<Mark<L>>
    decreases n, 1
  {
    match n
    case Alias(target) => [Use(target)]
    case Node(_, _, None, kids) => MarksIn(kids)
    case Node(_, _, Some(anchor), kids) => [Define(anchor)] + MarksIn(kids)
  }

  function MarksIn<L>(kids: seq<Node<L>>): seq<Mark<L>>
    decreases kids, 0
  {
    if kids == [] then [] else Marks(kids[0]) + MarksIn(kids[1..])
  }

  function DefinedBy<L(==)>(marks: seq<Mark<L>>): set<L> {
    set m | m in marks && m.Define? :: m.name
  }

  function UsedBy<L(==)>(marks: seq<Mark<L>>): set<L> {
    set m | m in marks && m.Use? :: m.name
  }

  // No name is defined twice, and each use follows its definition, in `marks` or before it.
  ghost predicate InOrder<L(!new)>(marks: seq<Mark<L>>, before: set<L>) {
    && (forall i, j | 0 <= i < j < |marks| && marks[i].Define? && marks[j].Define? ::
          marks[i].name != marks[j].name)
    && (forall i | 0 <= i < |marks| && marks[i].Define? :: marks[i].name !in before)
    && forall i | 0 <= i < |marks| && marks[i].Use? ::
         marks[i].name in before || exists j :: 0 <= j < i && marks[j] == Define(marks[i].name)
  }

  lemma {:induction false} ScopedIsInOrder<L(!new)>(n: Node<L>, scope: set<L>)
    requires Scoped(n, scope)
    ensures InOrder(Marks(n), scope)
    ensures DefinedBy(Marks(n)) == Anchors(n) && UsedBy(Marks(n)) == Targets(n)
    decreases n, 1
  {
    if n.Node? {
      ScopedInIsInOrder(n.kids, scope + OwnAnchor(n));
      if n.anchor.Some? {
        var first, rest := [Define(n.anchor.value)], MarksIn(n.kids);
        assert first[0] == Define(n.anchor.value);
        Joined(first, rest, scope);
      } else {
        assert scope + OwnAnchor(n) == scope;
      }
    }
  }

  lemma {:induction false} ScopedInIsInOrder<L(!new)>(kids: seq<Node<L>>, scope: set<L>)
    requires ScopedIn(kids, scope)
    ensures InOrder(MarksIn(kids), scope)
    ensures DefinedBy(MarksIn(kids)) == AnchorsIn(kids)
    ensures UsedBy(MarksIn(kids)) == TargetsIn(kids)
    decreases kids, 0
  {
    if kids != [] {
      ScopedIsInOrder(kids[0], scope);
      ScopedInIsInOrder(kids[1..], scope + Anchors(kids[0]));
      Joined(Marks(kids[0]), MarksIn(kids[1..]), scope);
    }
  }

  lemma Joined<L(!new)>(first: seq<Mark<L>>, rest: seq<Mark<L>>, before: set<L>)
    requires InOrder(first, before)
    requires InOrder(rest, before + DefinedBy(first))
    ensures InOrder(first + rest, before)
    ensures DefinedBy(first + rest) == DefinedBy(first) + DefinedBy(rest)
    ensures UsedBy(first + rest) == UsedBy(first) + UsedBy(rest)
  {
    var marks := first + rest;
    assert forall m <- first :: m in marks;
    assert forall m <- rest :: m in marks;
    forall i | 0 <= i < |marks| && marks[i].Use?
      ensures marks[i].name in before
           || exists j :: 0 <= j < i && marks[j] == Define(marks[i].name)
    {
      if i < |first| {
        if marks[i].name !in before {
          var j :| 0 <= j < i && first[j] == Define(marks[i].name);
          assert marks[j] == first[j];
        }
      } else {
        var k := i - |first|;
        assert rest[k] == marks[i];
        if marks[i].name in DefinedBy(first) {
          assert Define(marks[i].name) in first;
          var j :| 0 <= j < |first| && first[j] == Define(marks[i].name);
          assert marks[j] == first[j];
        } else if marks[i].name !in before {
          var j :| 0 <= j < k && rest[j] == Define(marks[i].name);
          assert marks[|first| + j] == rest[j];
        }
      }
    }
  }

  // What a reader of the document relies on.
  ghost predicate WellAnchored<L(!new)>(root: Node<L>) {
    && InOrder(Marks(root), {})
    && DefinedBy(Marks(root)) == UsedBy(Marks(root))
  }

  // ----- The lowering itself -----

  // Raw markers stand for the objects they are the identity of.
  function Itself(g: Graph): map<Id, Id> { map id | id in g :: id }

  // One step from an object to one it refers to.
  predicate Refers(g: Graph, id: Id, next: Id)
    requires id in g
  {
    match g[id]
    case Own(_, _, _, kids) => next in kids
    case Delegate(target) => next == target
    case Wrap(_, inner) => next == inner
  }

  ghost predicate ReachesIn(g: Graph, id: Id, goal: Id, steps: nat)
    decreases steps
  {
    if steps == 0 then id == goal
    else id in g && exists next :: Refers(g, id, next) && ReachesIn(g, next, goal, steps - 1)
  }

  ghost predicate Reaches(g: Graph, id: Id, goal: Id) {
    exists steps: nat :: ReachesIn(g, id, goal, steps)
  }

  ghost predicate SomeReaches(g: Graph, ids: seq<Id>, goal: Id) {
    exists id <- ids :: Reaches(g, id, goal)
  }

  lemma ReachesItself(g: Graph, id: Id)
    ensures Reaches(g, id, id)
  {
    assert ReachesIn(g, id, id, 0);
  }

  lemma ReachesThrough(g: Graph, id: Id, next: Id, goal: Id)
    requires id in g && Refers(g, id, next) && Reaches(g, next, goal)
    ensures Reaches(g, id, goal)
  {
    var steps: nat :| ReachesIn(g, next, goal, steps);
    assert ReachesIn(g, id, goal, steps + 1);
  }

  // Some chain of references from `id` has `steps` steps.
  ghost predicate Deep(g: Graph, id: Id, steps: nat)
    decreases steps
  {
    steps == 0 || (id in g && exists next :: Refers(g, id, next) && Deep(g, next, steps - 1))
  }

  // At least one step.
  ghost predicate Beyond(g: Graph, id: Id, goal: Id) {
    id in g && exists next :: Refers(g, id, next) && Reaches(g, next, goal)
  }

  ghost predicate OnCycle(g: Graph, id: Id) { Beyond(g, id, id) }

  lemma {:induction false} ReachesOn(g: Graph, id: Id, via: Id, goal: Id, steps: nat)
    requires ReachesIn(g, id, via, steps) && Reaches(g, via, goal)
    ensures Reaches(g, id, goal)
    decreases steps
  {
    if steps > 0 {
      var next :| Refers(g, id, next) && ReachesIn(g, next, via, steps - 1);
      ReachesOn(g, next, via, goal, steps - 1);
      ReachesThrough(g, id, next, goal);
    }
  }

  lemma ReachesVia(g: Graph, id: Id, via: Id, goal: Id)
    requires Reaches(g, id, via) && Reaches(g, via, goal)
    ensures Reaches(g, id, goal)
  {
    var steps: nat :| ReachesIn(g, id, via, steps);
    ReachesOn(g, id, via, goal, steps);
  }

  // Following `steps` delegations.
  ghost predicate LeadsIn(g: Graph, id: Id, owner: Id, steps: nat)
    decreases steps
  {
    if steps == 0 then id == owner else id in g && g[id].Delegate? && LeadsIn(g, g[id].target, owner, steps - 1)
  }

  ghost predicate LeadsTo(g: Graph, id: Id, owner: Id) { exists steps: nat :: LeadsIn(g, id, owner, steps) }

  lemma LeadsToItself(g: Graph, id: Id)
    ensures LeadsTo(g, id, id)
  {
    assert LeadsIn(g, id, id, 0);
  }

  lemma LeadsThrough(g: Graph, id: Id, owner: Id)
    requires id in g && g[id].Delegate? && LeadsTo(g, g[id].target, owner)
    ensures LeadsTo(g, id, owner)
  {
    var steps: nat :| LeadsIn(g, g[id].target, owner, steps);
    assert LeadsIn(g, id, owner, steps + 1);
  }

  lemma {:induction false} LeadsReaches(g: Graph, id: Id, owner: Id, steps: nat)
    requires LeadsIn(g, id, owner, steps)
    ensures Reaches(g, id, owner)
    decreases steps
  {
    if steps == 0 {
      ReachesItself(g, id);
    } else {
      LeadsReaches(g, g[id].target, owner, steps - 1);
      ReachesThrough(g, id, g[id].target, owner);
    }
  }

  // The wrapper `w` puts a tag on a reference to `t`.
  ghost predicate TagsReference(g: Graph, w: Id, t: Id) {
    w in g && g[w].Wrap? && LeadsTo(g, g[w].inner, t)
  }

  // One child of `p` leads to `t`, and a later one to `w`.
  ghost predicate Forks(g: Graph, p: Id, t: Id, w: Id) {
    p in g && g[p].Own? && SomeFork(g, g[p].kids, t, w)
  }

  ghost predicate SomeFork(g: Graph, ids: seq<Id>, t: Id, w: Id) {
    exists i, j | 0 <= i < j < |ids| :: Reaches(g, ids[i], t) && Reaches(g, ids[j], w)
  }

  // Why `t` has a node elsewhere, or an alias inside its own.
  ghost predicate IsShared(g: Graph, id: Id, w: Id, t: Id, seen: set<Id>) {
    t in seen || OnCycle(g, t) || OnCycle(g, w) || exists p :: Reaches(g, id, p) && Forks(g, p, t, w)
  }

  ghost predicate TagsShared(g: Graph, id: Id, seen: set<Id>) {
    exists w, t :: TagsReference(g, w, t) && Reaches(g, id, w) && IsShared(g, id, w, t, seen)
  }

  // What in the graph an error points at, beyond what was seen before.
  ghost predicate Explained(g: Graph, e: Error, id: Id, depth: nat, seen: set<Id>)
    requires Closed(g) && depth <= MAX_REPRESENT_DEPTH
  {
    match e
    case TooDeep => Deep(g, id, MAX_REPRESENT_DEPTH - depth)
    case RefersToItself => exists d <- g :: g[d].Delegate? && Reaches(g, id, d) && Reaches(g, g[d].target, d)
    case NestedTag => exists w <- g :: g[w].Wrap? && Reaches(g, id, w) && IdentityOf(g, w) == None
    case TagOnAlias => TagsShared(g, id, seen)
  }

  ghost predicate ForksToShared(g: Graph, ids: seq<Id>) {
    exists w, t :: TagsReference(g, w, t) && SomeFork(g, ids, t, w)
  }

  ghost predicate ExplainedByKid(g: Graph, e: Error, ids: seq<Id>, depth: nat, seen: set<Id>)
    requires Closed(g) && depth < MAX_REPRESENT_DEPTH
  {
    (exists id <- ids :: Explained(g, e, id, depth + 1, seen)) || (e == TagOnAlias && ForksToShared(g, ids))
  }

  lemma ExplainedHere(g: Graph, e: Error, id: Id, next: Id, depth: nat, seen: set<Id>)
    requires Closed(g) && depth < MAX_REPRESENT_DEPTH && id in g && Refers(g, id, next)
    requires Explained(g, e, next, depth + 1, seen)
    ensures Explained(g, e, id, depth, seen)
  {
    match e
    case TooDeep =>
    case RefersToItself =>
      var d :| d in g && g[d].Delegate? && Reaches(g, next, d) && Reaches(g, g[d].target, d);
      ReachesThrough(g, id, next, d);
    case NestedTag =>
      var w :| w in g && g[w].Wrap? && Reaches(g, next, w) && IdentityOf(g, w) == None;
      ReachesThrough(g, id, next, w);
    case TagOnAlias =>
      var w, t :| TagsReference(g, w, t) && Reaches(g, next, w) && IsShared(g, next, w, t, seen);
      ReachesThrough(g, id, next, w);
      if p :| Reaches(g, next, p) && Forks(g, p, t, w) {
        ReachesThrough(g, id, next, p);
      }
      assert IsShared(g, id, w, t, seen);
  }

  lemma ExplainedByOwner(g: Graph, e: Error, id: Id, depth: nat, seen: set<Id>)
    requires Closed(g) && depth < MAX_REPRESENT_DEPTH && id in g && g[id].Own?
    requires ExplainedByKid(g, e, g[id].kids, depth, seen)
    ensures Explained(g, e, id, depth, seen)
  {
    if kid :| kid in g[id].kids && Explained(g, e, kid, depth + 1, seen) {
      ExplainedHere(g, e, id, kid, depth, seen);
    } else {
      var w, t :| TagsReference(g, w, t) && SomeFork(g, g[id].kids, t, w);
      var i, j :| 0 <= i < j < |g[id].kids| && Reaches(g, g[id].kids[i], t) && Reaches(g, g[id].kids[j], w);
      ReachesThrough(g, id, g[id].kids[j], w);
      ReachesItself(g, id);
      assert Forks(g, id, t, w);
      assert IsShared(g, id, w, t, seen);
    }
  }

  // What was in progress explains a tag by a cycle.
  lemma ExplainedUnseen(g: Graph, e: Error, id: Id, depth: nat, seen: set<Id>)
    requires Closed(g) && depth <= MAX_REPRESENT_DEPTH
    requires Explained(g, e, id, depth, seen + {id})
    ensures Explained(g, e, id, depth, seen)
  {
    if e == TagOnAlias {
      var w, t :| TagsReference(g, w, t) && Reaches(g, id, w) && IsShared(g, id, w, t, seen + {id});
      if t == id {
        var steps: nat :| LeadsIn(g, g[w].inner, t, steps);
        LeadsReaches(g, g[w].inner, t, steps);
        ReachesVia(g, g[w].inner, id, w);
        assert Refers(g, w, g[w].inner) && OnCycle(g, w);
      }
      assert IsShared(g, id, w, t, seen);
    }
  }

  // A later child's error, explained without what earlier children defined.
  lemma ExplainedByLater(g: Graph, e: Error, ids: seq<Id>, j: nat, depth: nat, seen: set<Id>, more: set<Id>)
    requires Closed(g) && depth < MAX_REPRESENT_DEPTH && j < |ids|
    requires forall t <- more :: SomeReaches(g, ids[..j], t)
    requires Explained(g, e, ids[j], depth + 1, seen + more)
    ensures ExplainedByKid(g, e, ids, depth, seen)
  {
    assert ids[j] in ids;
    if e == TagOnAlias {
      var w, t :| TagsReference(g, w, t) && Reaches(g, ids[j], w) && IsShared(g, ids[j], w, t, seen + more);
      if t in more && !IsShared(g, ids[j], w, t, seen) {
        var early :| early in ids[..j] && Reaches(g, early, t);
        var i :| 0 <= i < j && ids[..j][i] == early;
        assert ids[i] == early;
        assert SomeFork(g, ids, t, w) && ForksToShared(g, ids);
      } else {
        assert IsShared(g, ids[j], w, t, seen);
        assert Explained(g, e, ids[j], depth + 1, seen);
      }
    }
  }

  // What one successful lowering of `id` did to the tracking sets.
  ghost predicate Lowered(
    g: Graph, n: Node<Id>, id: Id,
    seen0: set<Id>, seen1: set<Id>, aliased0: set<Id>, aliased1: set<Id>)
    requires Closed(g) && id in g
  {
    && Shows(g, n, id, Itself(g))
    && Scoped(n, seen0)
    && seen1 == seen0 + Anchors(n)
    && aliased1 == aliased0 + Targets(n)
    && (forall t <- Targets(n) :: Reaches(g, id, t))
    && forall a <- Anchors(n) :: Reaches(g, id, a)
  }

  // The same for the children of a node.
  ghost predicate LoweredKids(
    g: Graph, kids: seq<Node<Id>>, ids: seq<Id>,
    seen0: set<Id>, seen1: set<Id>, aliased0: set<Id>, aliased1: set<Id>)
    requires Closed(g) && forall id <- ids :: id in g
  {
    && |kids| == |ids|
    && (forall i | 0 <= i < |kids| :: Shows(g, kids[i], ids[i], Itself(g)))
    && ScopedIn(kids, seen0)
    && seen1 == seen0 + AnchorsIn(kids)
    && aliased1 == aliased0 + TargetsIn(kids)
    && (forall t <- TargetsIn(kids) :: SomeReaches(g, ids, t))
    && forall a <- AnchorsIn(kids) :: SomeReaches(g, ids, a)
  }

  // ----- Sharing: which object each node of the raw tree is the node of -----

  predicate IsAliasable(g: Graph, id: Id)
    requires id in g
  {
    g[id].Own? ==> g[id].aliasable
  }

  // An alias or an anchored node is that of the object that the delegations lead to; only an
  // object that is not aliasable has a node without an anchor.
  ghost predicate Tracked(g: Graph, n: Node<Id>, id: Id)
    requires Closed(g) && id in g
    decreases n
  {
    match n
    case Alias(target) => LeadsTo(g, id, target)
    case Node(_, _, anchor, kids) =>
      && (if anchor.Some? then IsNodeOf(g, anchor.value, id) else IsNodeOfPlain(g, id))
      && var shown := IdentityOf(g, id);
      && shown.Some? && |g[shown.value.base].kids| == |kids|
      && forall i | 0 <= i < |kids| :: Tracked(g, kids[i], g[shown.value.base].kids[i])
  }

  ghost predicate IsNodeOf(g: Graph, owner: Id, id: Id) {
    owner in g && !g[owner].Delegate? && IsAliasable(g, owner) && LeadsTo(g, id, owner)
  }

  ghost predicate IsNodeOfPlain(g: Graph, id: Id) {
    exists owner <- g :: g[owner].Own? && !g[owner].aliasable && LeadsTo(g, id, owner)
  }

  // Every child is; nothing is said yet of the node's own anchor.
  ghost predicate TrackedBelow(g: Graph, n: Node<Id>, id: Id)
    requires Closed(g) && id in g && n.Node?
  {
    var shown := IdentityOf(g, id);
    && shown.Some? && |g[shown.value.base].kids| == |n.kids|
    && forall i | 0 <= i < |n.kids| :: Tracked(g, n.kids[i], g[shown.value.base].kids[i])
  }

  lemma DelegateTracked(g: Graph, n: Node<Id>, id: Id)
    requires Closed(g) && id in g && g[id].Delegate? && Tracked(g, n, g[id].target)
    ensures Tracked(g, n, id)
  {
    IdentityOfDelegate(g, id);
    if n.Alias? {
      LeadsThrough(g, id, n.target);
    } else if n.anchor.Some? {
      LeadsThrough(g, id, n.anchor.value);
    } else {
      var owner :| owner in g && g[owner].Own? && !g[owner].aliasable && LeadsTo(g, g[id].target, owner);
      LeadsThrough(g, id, owner);
    }
  }

  lemma StampedTracked(g: Graph, n: Node<Id>, id: Id)
    requires Closed(g) && id in g && !g[id].Delegate? && n.Node? && n.anchor == None && TrackedBelow(g, n, id)
    ensures IsAliasable(g, id) ==> Tracked(g, n.(anchor := Some(id)), id)
    ensures !IsAliasable(g, id) ==> Tracked(g, n, id)
  {
    LeadsToItself(g, id);
  }

  lemma OwnerTracked(g: Graph, n: Node<Id>, id: Id)
    requires Closed(g) && id in g && g[id].Own? && n.Node? && TrackedKids(g, n.kids, g[id].kids)
    ensures TrackedBelow(g, n, id)
  {
    IdentityIsHead(g, id, 0);
  }

  lemma WrapTracked(g: Graph, n: Node<Id>, tagged: Node<Id>, id: Id)
    requires Closed(g) && id in g && g[id].Wrap? && n.Node? && tagged.Node? && tagged.kids == n.kids
    requires Tracked(g, n, g[id].inner) && IdentityOf(g, id).Some?
    ensures TrackedBelow(g, tagged, id)
  {
    IdentityOfWrap(g, id);
  }

  // How many nodes of a tree bear a mark.
  function NodesOf<L(==)>(n: Node<L>, mark: L): nat
    decreases n, 1
  {
    if n.Alias? then 0 else (if n.anchor == Some(mark) then 1 else 0) + NodesOfIn(n.kids, mark)
  }

  function NodesOfIn<L(==)>(kids: seq<Node<L>>, mark: L): nat
    decreases kids, 0
  {
    if kids == [] then 0 else NodesOf(kids[0], mark) + NodesOfIn(kids[1..], mark)
  }

  // Exactly one, if the tree defines it at all.
  lemma {:induction false} OneNodeEach<L>(n: Node<L>, scope: set<L>, mark: L)
    requires Scoped(n, scope)
    ensures NodesOf(n, mark) == if mark in Anchors(n) then 1 else 0
    ensures mark in Anchors(n) ==> mark !in scope
    decreases n, 1
  {
    if n.Node? {
      OneNodeEachIn(n.kids, scope + OwnAnchor(n), mark);
    }
  }

  lemma {:induction false} OneNodeEachIn<L>(kids: seq<Node<L>>, scope: set<L>, mark: L)
    requires ScopedIn(kids, scope)
    ensures NodesOfIn(kids, mark) == if mark in AnchorsIn(kids) then 1 else 0
    ensures mark in AnchorsIn(kids) ==> mark !in scope
    decreases kids, 0
  {
    if kids != [] {
      OneNodeEach(kids[0], scope, mark);
      OneNodeEachIn(kids[1..], scope + Anchors(kids[0]), mark);
    }
  }

  // A raw tree in which every object that can be shared has one node, and is an alias of it
  // wherever else it occurs.
  ghost predicate SharesAll(g: Graph, raw: Node<Id>, id: Id)
    requires Closed(g) && id in g
  {
    && Tracked(g, raw, id)
    && Targets(raw) <= Anchors(raw)
    && forall a <- Anchors(raw) :: NodesOf(raw, a) == 1
  }

  // The tree is such a one, with its marks renamed.
  ghost predicate KeepsSharing(g: Graph, n: Node<string>, id: Id)
    requires Closed(g) && id in g
  {
    exists raw, names :: n == Renamed(raw, names) && Injective(names) && SharesAll(g, raw, id)
  }

  // ----- Nesting -----

  // No more than `levels` nodes inside one another, aliases included.
  predicate Nests<L(==)>(n: Node<L>, levels: int)
    decreases n, 1
  {
    levels > 0 && (n.Node? ==> NestsIn(n.kids, levels - 1))
  }

  predicate NestsIn<L(==)>(kids: seq<Node<L>>, levels: int)
    decreases kids, 0
  {
    kids != [] ==> Nests(kids[0], levels) && NestsIn(kids[1..], levels)
  }

  lemma {:induction false} NestsInMore<L>(n: Node<L>, levels: int)
    requires Nests(n, levels)
    ensures Nests(n, levels + 1)
    decreases n, 1
  {
    if n.Node? {
      KidsNestInMore(n.kids, levels - 1);
    }
  }

  lemma {:induction false} KidsNestInMore<L>(kids: seq<Node<L>>, levels: int)
    requires NestsIn(kids, levels)
    ensures NestsIn(kids, levels + 1)
    decreases kids, 0
  {
    if kids != [] {
      NestsInMore(kids[0], levels);
      KidsNestInMore(kids[1..], levels);
    }
  }

  lemma {:induction false} OneMoreNests<L>(kids: seq<Node<L>>, kid: Node<L>, levels: int)
    requires NestsIn(kids, levels) && Nests(kid, levels)
    ensures NestsIn(kids + [kid], levels)
  {
    if kids != [] {
      assert (kids + [kid])[1..] == kids[1..] + [kid];
      OneMoreNests(kids[1..], kid, levels);
    }
  }

  lemma {:induction false} RenamedNests(n: Node<Id>, names: map<Id, string>, levels: int)
    requires Nests(n, levels)
    ensures Nests(Renamed(n, names), levels)
    decreases n, 1
  {
    if n.Node? {
      RenamedKidsNest(n.kids, names, levels - 1);
    }
  }

  lemma {:induction false} RenamedKidsNest(kids: seq<Node<Id>>, names: map<Id, string>, levels: int)
    requires NestsIn(kids, levels)
    ensures NestsIn(RenamedIn(kids, names), levels)
    decreases kids, 0
  {
    if kids != [] {
      RenamedNests(kids[0], names, levels);
      RenamedKidsNest(kids[1..], names, levels);
    }
  }

  // Every object owns its node, and only leaves escape the tracking of identities.
  predicate OwnersOnly(g: Graph) {
    forall id <- g :: g[id].Own? && (!g[id].aliasable ==> g[id].kids == [])
  }

  class Lower {
    const g: Graph
    var seen: set<Id>
    var aliased: set<Id>
    // Whether the node just rendered came from lowering a different object.
    var delegated: bool

    constructor (g: Graph)
      ensures this.g == g && seen == {} && aliased == {} && !delegated
    {
      this.g := g;
      seen, aliased, delegated := {}, {}, false;
    }

    // An alias of a node inside that node goes round a cycle.
    ghost predicate UsedOnlyOnCycle(n: Node<Id>)
      requires n.Node?
    {
      n.anchor.Some? && n.anchor.value in Targets(n) ==> OnCycle(g, n.anchor.value)
    }

    method LowerObject(id: Id, depth: nat) returns (r: Result<Node<Id>, Error>)
      requires Closed(g) && id in g && !delegated && depth <= MAX_REPRESENT_DEPTH
      requires aliased <= seen
      modifies this
      ensures !delegated
      ensures r.Ok? ==> Lowered(g, r.value, id, old(seen), seen, old(aliased), aliased)
      ensures r.Ok? ==> aliased <= seen
      ensures r.Ok? ==> Tracked(g, r.value, id) && (r.value.Node? ==> UsedOnlyOnCycle(r.value))
      ensures r.Ok? ==> Nests(r.value, 1000 - depth)
      ensures r.Err? ==> Explained(g, r.error, id, depth, old(seen))
      ensures r == Err(TooDeep) || (OwnersOnly(g) ==> r.Ok?)
      ensures OwnersOnly(g) && depth + |g.Keys - old(seen)| < MAX_REPRESENT_DEPTH ==> r.Ok?
      decreases MAX_REPRESENT_DEPTH - depth, 1
    {
      if depth >= MAX_REPRESENT_DEPTH {
        return Err(TooDeep);
      }
      var aliasable := g[id].Own? ==> g[id].aliasable;
      if aliasable {
        if id in seen {
          aliased := aliased + {id};
          ReachesItself(g, id);
          LeadsToItself(g, id);
          return Ok(Alias(id));
        }
        seen := seen + {id};
        OneFewerUnseen(g.Keys, old(seen), id);
      }
      var rendered := Render(id, depth);
      var delegatedChild := delegated;
      delegated := false;
      if rendered.Err? {
        if aliasable {
          ExplainedUnseen(g, rendered.error, id, depth, old(seen));
        }
        return rendered;
      }
      var n := rendered.value;
      if delegatedChild {
        DelegateTracked(g, n, id);
      } else {
        StampedTracked(g, n, id);
      }
      if !aliasable {
        return Ok(n);
      }
      if !(delegatedChild || n.Alias? || n.anchor.Some?) {
        Stamped(g, n, id, old(seen), seen, old(aliased), aliased);
        return Ok(n.(anchor := Some(id)));
      }
      if id in aliased {
        ReachesItself(g, id);
        return Err(RefersToItself);
      }
      Released(g, n, id, old(seen), seen, old(aliased), aliased);
      seen := seen - {id};
      return Ok(n);
    }

    // The node of an object, before its own identity is stamped on it.
    method Render(id: Id, depth: nat) returns (r: Result<Node<Id>, Error>)
      requires Closed(g) && id in g && !delegated && depth < MAX_REPRESENT_DEPTH
      requires aliased <= seen
      modifies this
      ensures r.Err? ==> !delegated
      ensures r.Ok? ==> Lowered(g, r.value, id, old(seen), seen, old(aliased), aliased)
      ensures r.Ok? ==> aliased <= seen
      ensures r.Err? ==> Explained(g, r.error, id, depth, old(seen))
      ensures r.Ok? ==> delegated == g[id].Delegate?
      ensures r.Ok? && delegated ==> forall t <- Targets(r.value) :: Reaches(g, g[id].target, t)
      ensures r.Ok? && delegated ==> Tracked(g, r.value, g[id].target) && (r.value.Node? ==> UsedOnlyOnCycle(r.value))
      ensures r.Ok? ==> Nests(r.value, 1000 - depth)
      ensures r.Ok? && !delegated ==> r.value.Node? && r.value.anchor == None
      ensures r.Ok? && !delegated ==> TrackedBelow(g, r.value, id) && forall t <- Targets(r.value) :: Beyond(g, id, t)
      ensures r == Err(TooDeep) || (OwnersOnly(g) ==> r.Ok?)
      ensures OwnersOnly(g) && (g[id].kids == [] || depth + 1 + |g.Keys - old(seen)| < MAX_REPRESENT_DEPTH)
              ==> r.Ok?
      decreases MAX_REPRESENT_DEPTH - depth, 0
    {
      match g[id] {
        case Own(_, shape, tag, ids) =>
          var kids := LowerKids(ids, depth);
          if kids.Err? {
            ExplainedByOwner(g, kids.error, id, depth, old(seen));
            return Err(kids.error);
          }
          OwnerLowered(g, kids.value, id, old(seen), seen, old(aliased), aliased);
          r := Ok(Node(shape, tag, None, kids.value));
          OwnerTracked(g, r.value, id);
        case Delegate(target) =>
          r := LowerObject(target, depth + 1);
          if r.Err? {
            ExplainedHere(g, r.error, id, target, depth, old(seen));
          } else {
            NestsInMore(r.value, 999 - depth);
            DelegateLowered(g, r.value, id, old(seen), seen, old(aliased), aliased);
            delegated := true;
          }
        case Wrap(name, inner) =>
          r := TaggedNode(id, depth);
      }
    }

    method LowerKids(ids: seq<Id>, depth: nat) returns (r: Result<seq<Node<Id>>, Error>)
      requires Closed(g) && !delegated && depth < MAX_REPRESENT_DEPTH
      requires aliased <= seen
      requires forall id <- ids :: id in g
      modifies this
      ensures !delegated
      ensures r.Ok? ==> LoweredKids(g, r.value, ids, old(seen), seen, old(aliased), aliased)
      ensures r.Ok? ==> aliased <= seen
      ensures r.Ok? ==> TrackedKids(g, r.value, ids) && NestsIn(r.value, 999 - depth)
      ensures r.Err? ==> ExplainedByKid(g, r.error, ids, depth, old(seen))
      ensures r == Err(TooDeep) || (OwnersOnly(g) ==> r.Ok?)
      ensures OwnersOnly(g) && (ids == [] || depth + 1 + |g.Keys - old(seen)| < MAX_REPRESENT_DEPTH) ==> r.Ok?
      decreases MAX_REPRESENT_DEPTH - depth - 1, 3
    {
      var out: seq<Node<Id>> := [];
      for i := 0 to |ids|
        invariant !delegated
        invariant old(seen) <= seen && aliased <= seen
        invariant KidsSoFar(g, out, ids, i, old(seen), seen, old(aliased), aliased)
        invariant NestsIn(out, 999 - depth)
      {
        var more := LowerKid(ids, i, depth, out, old(seen), old(aliased));
        if more.Err? {
          return more;
        }
        out := more.value;
      }
      TakeAll(ids);
      return Ok(out);
    }

    // One round: the next child, after the first `i` ones.
    method LowerKid(ids: seq<Id>, i: nat, depth: nat, kids: seq<Node<Id>>, ghost seen0: set<Id>, ghost aliased0: set<Id>)
      returns (r: Result<seq<Node<Id>>, Error>)
      requires Closed(g) && !delegated && depth < MAX_REPRESENT_DEPTH
      requires seen0 <= seen && aliased <= seen
      requires i < |ids| && KidsSoFar(g, kids, ids, i, seen0, seen, aliased0, aliased) && NestsIn(kids, 999 - depth)
      modifies this
      ensures !delegated
      ensures r.Ok? ==> KidsSoFar(g, r.value, ids, i + 1, seen0, seen, aliased0, aliased)
      ensures r.Ok? ==> NestsIn(r.value, 999 - depth)
      ensures r.Ok? ==> seen0 <= seen && aliased <= seen
      ensures r.Err? ==> ExplainedByKid(g, r.error, ids, depth, seen0)
      ensures r == Err(TooDeep) || (OwnersOnly(g) ==> r.Ok?)
      ensures OwnersOnly(g) && depth + 1 + |g.Keys - seen0| < MAX_REPRESENT_DEPTH ==> r.Ok?
      decreases MAX_REPRESENT_DEPTH - depth - 1, 2
    {
      hide Nests, NestsIn;
      FewerUnseen(g.Keys, seen0, seen);
      assert ids[i] in ids;
      ghost var before, aliasedBefore := seen, aliased;
      var kid := LowerObject(ids[i], depth + 1);
      if kid.Err? {
        KidFailed(g, kids, kid.error, ids, i, depth, seen0, before, aliased0, aliasedBefore);
        return Err(kid.error);
      }
      OneMoreNests(kids, kid.value, 999 - depth);
      KidDone(g, kids, kid.value, ids, i, seen0, before, seen, aliased0, aliasedBefore, aliased);
      return Ok(kids + [kid.value]);
    }

    // A tag belongs to the wrapper: the wrapped object loses its claim on the node.
    method TaggedNode(id: Id, depth: nat) returns (r: Result<Node<Id>, Error>)
      requires Closed(g) && id in g && g[id].Wrap? && !delegated && depth < MAX_REPRESENT_DEPTH
      requires aliased <= seen
      modifies this
      ensures !delegated
      ensures r.Ok? ==> Lowered(g, r.value, id, old(seen), seen, old(aliased), aliased)
      ensures r.Ok? ==> aliased <= seen
      ensures r.Err? ==> Explained(g, r.error, id, depth, old(seen))
      ensures r.Ok? ==> r.value.Node? && r.value.anchor == None && Nests(r.value, 1000 - depth)
      ensures r.Ok? ==> TrackedBelow(g, r.value, id) && forall t <- Targets(r.value) :: Beyond(g, id, t)
      decreases MAX_REPRESENT_DEPTH - depth - 1, 2
    {
      var inner := g[id].inner;
      var lowered := LowerObject(inner, depth + 1);
      if lowered.Err? {
        ExplainedHere(g, lowered.error, id, inner, depth, old(seen));
        return lowered;
      }
      var n := lowered.value;
      if n.Alias? {
        TagExplained(g, id, n.target, old(seen));
        return Err(TagOnAlias);
      }
      if n.tag.Some? {
        NestedTagHasNoMeaning(g, n, id);
        ReachesItself(g, id);
        return Err(NestedTag);
      }
      if n.anchor.Some? && n.anchor.value in aliased {
        TagExplained(g, id, n.anchor.value, old(seen));
        return Err(TagOnAlias);
      }
      NestsInMore(n, 999 - depth);
      WrapLowered(g, n, id, old(seen), seen, old(aliased), aliased);
      WrapTracked(g, n, n.(anchor := None, tag := Some(g[id].mark)), id);
      if n.anchor.Some? {
        seen := seen - {n.anchor.value};
      }
      return Ok(n.(anchor := None, tag := Some(g[id].mark)));
    }
  }

  lemma TagExplained(g: Graph, id: Id, t: Id, seen: set<Id>)
    requires id in g && g[id].Wrap? && LeadsTo(g, g[id].inner, t) && (t in seen || OnCycle(g, t))
    ensures TagsShared(g, id, seen)
  {
    ReachesItself(g, id);
    assert TagsReference(g, id, t) && IsShared(g, id, id, t, seen);
  }

  ghost predicate TrackedKids(g: Graph, kids: seq<Node<Id>>, ids: seq<Id>)
    requires Closed(g) && forall id <- ids :: id in g
  {
    |kids| == |ids| && forall i | 0 <= i < |kids| :: Tracked(g, kids[i], ids[i])
  }

  // The first `i` children are lowered.
  ghost predicate KidsSoFar(
    g: Graph, kids: seq<Node<Id>>, ids: seq<Id>, i: nat,
    seen0: set<Id>, seen1: set<Id>, aliased0: set<Id>, aliased1: set<Id>)
    requires Closed(g)
  {
    && i <= |ids| && (forall id <- ids :: id in g)
    && LoweredKids(g, kids, ids[..i], seen0, seen1, aliased0, aliased1) && TrackedKids(g, kids, ids[..i])
  }

  // One more child, of the first `i` ones.
  lemma KidDone(
    g: Graph, kids: seq<Node<Id>>, kid: Node<Id>, ids: seq<Id>, i: nat,
    seen0: set<Id>, seen1: set<Id>, seen2: set<Id>,
    aliased0: set<Id>, aliased1: set<Id>, aliased2: set<Id>)
    requires Closed(g) && i < |ids| && (forall id <- ids :: id in g) && ids[i] in g
    requires LoweredKids(g, kids, ids[..i], seen0, seen1, aliased0, aliased1) && TrackedKids(g, kids, ids[..i])
    requires Lowered(g, kid, ids[i], seen1, seen2, aliased1, aliased2) && Tracked(g, kid, ids[i])
    ensures LoweredKids(g, kids + [kid], ids[..i + 1], seen0, seen2, aliased0, aliased2)
    ensures TrackedKids(g, kids + [kid], ids[..i + 1])
  {
    TakeMore(ids, i);
    OneMoreKid(g, kids, kid, ids[..i], ids[i], seen0, seen1, seen2, aliased0, aliased1, aliased2);
  }

  // A child that fails, after the first `i` ones.
  lemma KidFailed(
    g: Graph, kids: seq<Node<Id>>, e: Error, ids: seq<Id>, i: nat, depth: nat,
    seen0: set<Id>, seen1: set<Id>, aliased0: set<Id>, aliased1: set<Id>)
    requires Closed(g) && depth < MAX_REPRESENT_DEPTH && i < |ids| && (forall id <- ids :: id in g)
    requires LoweredKids(g, kids, ids[..i], seen0, seen1, aliased0, aliased1)
    requires Explained(g, e, ids[i], depth + 1, seen1)
    ensures ExplainedByKid(g, e, ids, depth, seen0)
  {
    ExplainedByLater(g, e, ids, i, depth, seen0, AnchorsIn(kids));
  }

  lemma OneMoreKid(
    g: Graph, kids: seq<Node<Id>>, kid: Node<Id>, ids: seq<Id>, id: Id,
    seen0: set<Id>, seen1: set<Id>, seen2: set<Id>,
    aliased0: set<Id>, aliased1: set<Id>, aliased2: set<Id>)
    requires Closed(g) && id in g && forall i <- ids :: i in g
    requires LoweredKids(g, kids, ids, seen0, seen1, aliased0, aliased1)
    requires Lowered(g, kid, id, seen1, seen2, aliased1, aliased2)
    ensures LoweredKids(g, kids + [kid], ids + [id], seen0, seen2, aliased0, aliased2)
  {
    AppendKid(kids, kid, seen0);
    assert id in ids + [id] && forall i <- ids :: i in ids + [id];
  }

  // An object that built its own node is what that node's anchor stands for.
  lemma Stamped(
    g: Graph, n: Node<Id>, id: Id,
    seen0: set<Id>, seen1: set<Id>, aliased0: set<Id>, aliased1: set<Id>)
    requires Closed(g) && id in g && id !in seen0 && n.Node? && n.anchor == None
    requires Lowered(g, n, id, seen0 + {id}, seen1, aliased0, aliased1)
    ensures Lowered(g, n.(anchor := Some(id)), id, seen0, seen1, aliased0, aliased1)
  {
    var stamped := n.(anchor := Some(id));
    assert OwnAnchor(stamped) == {id};
    assert seen0 + {id} + OwnAnchor(n) == seen0 + OwnAnchor(stamped);
    assert Anchors(n) == AnchorsIn(n.kids);
    ReachesItself(g, id);
  }

  // An object whose node is another's is forgotten again, provided nothing aliased it.
  lemma Released(
    g: Graph, n: Node<Id>, id: Id,
    seen0: set<Id>, seen1: set<Id>, aliased0: set<Id>, aliased1: set<Id>)
    requires Closed(g) && id in g && id !in seen0 && id !in aliased1
    requires Lowered(g, n, id, seen0 + {id}, seen1, aliased0, aliased1)
    ensures Lowered(g, n, id, seen0, seen1 - {id}, aliased0, aliased1)
  {
    Untrack(n, seen0, id);
    assert seen1 - {id} == seen0 + Anchors(n);
  }

  lemma OneFewerUnseen(all: set<Id>, seen: set<Id>, id: Id)
    requires id in all && id !in seen
    ensures |all - (seen + {id})| + 1 == |all - seen|
  {
    assert all - seen == all - (seen + {id}) + {id};
  }

  lemma FewerUnseen(all: set<Id>, seen: set<Id>, more: set<Id>)
    requires seen <= more
    ensures |all - more| <= |all - seen|
  {
    var rest := (all - seen) - (all - more);
    assert all - seen == (all - more) + rest;
  }

  lemma DelegateLowered(
    g: Graph, n: Node<Id>, id: Id,
    seen0: set<Id>, seen1: set<Id>, aliased0: set<Id>, aliased1: set<Id>)
    requires Closed(g) && id in g && g[id].Delegate?
    requires Lowered(g, n, g[id].target, seen0, seen1, aliased0, aliased1)
    ensures Lowered(g, n, id, seen0, seen1, aliased0, aliased1)
  {
    IdentityOfDelegate(g, id);
    forall t | t in Targets(n) + Anchors(n) ensures Reaches(g, id, t) {
      ReachesThrough(g, id, g[id].target, t);
    }
  }

  lemma OwnerLowered(
    g: Graph, kids: seq<Node<Id>>, id: Id,
    seen0: set<Id>, seen1: set<Id>, aliased0: set<Id>, aliased1: set<Id>)
    requires Closed(g) && id in g && g[id].Own?
    requires LoweredKids(g, kids, g[id].kids, seen0, seen1, aliased0, aliased1)
    ensures Lowered(g, Node(g[id].shape, g[id].tag, None, kids), id, seen0, seen1, aliased0, aliased1)
    ensures forall t <- TargetsIn(kids) :: Beyond(g, id, t)
  {
    var n := Node(g[id].shape, g[id].tag, None, kids);
    IdentityIsHead(g, id, 0);
    assert Anchors(n) == AnchorsIn(kids);
    assert seen0 + OwnAnchor(n) == seen0;
    forall t | t in Targets(n) + Anchors(n) ensures Reaches(g, id, t) && Beyond(g, id, t) {
      var kid :| kid in g[id].kids && Reaches(g, kid, t);
      ReachesThrough(g, id, kid, t);
      assert Refers(g, id, kid);
    }
  }

  lemma WrapLowered(
    g: Graph, n: Node<Id>, id: Id,
    seen0: set<Id>, seen1: set<Id>, aliased0: set<Id>, aliased1: set<Id>)
    requires Closed(g) && id in g && g[id].Wrap? && n.Node? && n.tag == None
    requires Lowered(g, n, g[id].inner, seen0, seen1, aliased0, aliased1)
    requires n.anchor.Some? ==> n.anchor.value !in aliased1
    ensures Lowered(g, n.(anchor := None, tag := Some(g[id].mark)), id,
                    seen0, seen1 - MarkerSet(n.anchor), aliased0, aliased1)
    ensures forall t <- Targets(n) :: Beyond(g, id, t)
  {
    var tagged := n.(anchor := None, tag := Some(g[id].mark));
    IdentityOfWrap(g, id);
    if n.anchor.Some? {
      Unanchored(n, seen0);
    }
    assert seen0 + OwnAnchor(tagged) == seen0;
    assert Anchors(tagged) == AnchorsIn(n.kids);
    assert seen0 + OwnAnchor(n) == seen0 + MarkerSet(n.anchor);
    assert seen1 - MarkerSet(n.anchor) == seen0 + Anchors(tagged);
    forall t | t in Targets(n) + Anchors(tagged) ensures Reaches(g, id, t) && Beyond(g, id, t) {
      ReachesThrough(g, id, g[id].inner, t);
      assert Refers(g, id, g[id].inner);
    }
  }

  lemma NestedTagHasNoMeaning(g: Graph, n: Node<Id>, id: Id)
    requires Closed(g) && id in g && g[id].Wrap? && n.Node? && n.tag.Some?
    requires Shows(g, n, g[id].inner, Itself(g))
    ensures IdentityOf(g, id) == None
  {
    IdentityOfWrap(g, id);
  }

  // Stripping an anchor that nothing used leaves the node in scope.
  lemma Unanchored(n: Node<Id>, scope: set<Id>)
    requires n.Node? && n.anchor.Some? && Scoped(n, scope) && n.anchor.value !in Targets(n)
    ensures ScopedIn(n.kids, scope)
    ensures n.anchor.value !in scope && n.anchor.value !in AnchorsIn(n.kids)
  {
    UntrackIn(n.kids, scope, n.anchor.value);
  }

  // ----- Naming: raw markers become `id001`, `id002`, ... or disappear -----

  function AnchorName(number: nat): string { "id" + Padded(number, 3) }

  // At least three digits.
  lemma NamesAreNumerals(number: nat)
    ensures number < 10 ==> AnchorName(number) == "id" + ("00" + Decimal(number))
    ensures 10 <= number < 100 ==> AnchorName(number) == "id" + ("0" + Decimal(number))
    ensures number >= 100 ==> AnchorName(number) == "id" + Decimal(number)
  {
    DigitsOf(number);
    ThreeDigits(Decimal(number));
    hide Decimal, ZeroFilled;
  }

  lemma DigitsOf(n: nat)
    ensures |Decimal(n)| == 1 <==> n < 10
    ensures |Decimal(n)| == 2 <==> 10 <= n < 100
  {
    if n >= 10 {
      assert |Decimal(n)| == |Decimal(n / 10)| + 1;
    }
  }

  lemma ThreeDigits(s: string)
    requires s != ""
    ensures |s| == 1 ==> ZeroFilled(s, 3) == "00" + s
    ensures |s| == 2 ==> ZeroFilled(s, 3) == "0" + s
    ensures |s| >= 3 ==> ZeroFilled(s, 3) == s
  {
    if |s| == 1 {
      assert ZeroFilled(s, 3) == ZeroFilled("0" + s, 3) == "0" + ("0" + s);
      assert "0" + ("0" + s) == "00" + s;
    }
  }

  lemma FirstName()
    ensures AnchorName(1) == "id001"
  {
    NamesAreNumerals(1);
    assert Decimal(1) == "1" && "00" + "1" == "001" && "id" + "001" == "id001";
  }

  // The anchors of a tree, in document order.
  function AnchorsOf(n: Node<string>): seq<string>
    decreases n, 1
  {
    if n.Alias? then [] else (if n.anchor.Some? then [n.anchor.value] else []) + AnchorsOfKids(n.kids)
  }

  function AnchorsOfKids(kids: seq<Node<string>>): seq<string>
    decreases kids, 0
  {
    if kids == [] then [] else AnchorsOf(kids[0]) + AnchorsOfKids(kids[1..])
  }

  lemma {:induction false} AnchorsOfOneMore(kids: seq<Node<string>>, kid: Node<string>)
    ensures AnchorsOfKids(kids + [kid]) == AnchorsOfKids(kids) + AnchorsOf(kid)
  {
    if kids == [] {
      assert [kid][1..] == [];
    } else {
      assert (kids + [kid])[1..] == kids[1..] + [kid];
      AnchorsOfOneMore(kids[1..], kid);
    }
  }

  // The names with the numbers after `from`, up to `to`.
  function NamesBetween(from: nat, to: nat): seq<string>
    requires from <= to
  {
    seq(to - from, i requires 0 <= i < to - from => AnchorName(from + i + 1))
  }

  lemma NamesGoOn(from: nat, mid: nat, to: nat)
    requires from <= mid <= to
    ensures NamesBetween(from, mid) + NamesBetween(mid, to) == NamesBetween(from, to)
  {
  }

  // A node's own anchor comes before those of its children.
  lemma NodeNamesGoOn(n: Node<string>, from: nat, mid: nat, to: nat)
    requires from <= mid <= to && n.Node? && AnchorsOfKids(n.kids) == NamesBetween(mid, to)
    requires if n.anchor.Some? then mid == from + 1 && n.anchor.value == AnchorName(mid) else mid == from
    ensures AnchorsOf(n) == NamesBetween(from, to)
  {
    hide AnchorName;
    NamesGoOn(from, mid, to);
    assert n.anchor.Some? ==> NamesBetween(from, mid) == [AnchorName(mid)];
    assert n.anchor.None? ==> NamesBetween(from, mid) == [];
  }

  lemma NewMarker(n: Node<Id>, scope: set<Id>, names: map<Id, string>, aliased: set<Id>)
    requires n.Node? && Scoped(n, scope) && names.Keys == scope * aliased
    ensures n.anchor.Some? ==> n.anchor.value !in names
  {
    if n.anchor.Some? {
      assert n.anchor.value in OwnAnchor(n);
    }
  }

  // The i-th anchor down the document is the i-th name.
  ghost predicate NamedInOrder(n: Node<string>) {
    var anchors := AnchorsOf(n);
    forall i | 0 <= i < |anchors| :: anchors[i] == AnchorName(i + 1)
  }

  lemma AreNamedInOrder(n: Node<string>, count: nat)
    requires AnchorsOf(n) == NamesBetween(0, count)
    ensures NamedInOrder(n)
  {
    hide AnchorName, AnchorsOf;
  }

  lemma NamesDiffer(a: nat, b: nat)
    requires a != b
    ensures AnchorName(a) != AnchorName(b)
  {
    PaddedNumber(a, 3);
    PaddedNumber(b, 3);
    assert AnchorName(a)[2..] == Padded(a, 3) && AnchorName(b)[2..] == Padded(b, 3);
  }

  predicate Injective(names: map<Id, string>) {
    forall a <- names, b <- names :: names[a] == names[b] ==> a == b
  }

  // The tree with the names of a naming: an unnamed anchor is stripped.
  function Renamed(n: Node<Id>, names: map<Id, string>): Node<string> {
    match n
    case Alias(target) => Alias(if target in names then names[target] else Decimal(target))
    case Node(shape, tag, anchor, kids) =>
      Node(shape, tag,
           MarkerName(anchor, names), RenamedIn(kids, names))
  }

  function MarkerName(marker: Option<Id>, names: map<Id, string>): Option<string> {
    if marker.Some? && marker.value in names then Some(names[marker.value]) else None
  }

  function RenamedIn(kids: seq<Node<Id>>, names: map<Id, string>): (r: seq<Node<string>>)
    ensures |r| == |kids|
    ensures forall i | 0 <= i < |kids| :: r[i] == Renamed(kids[i], names)
  {
    if kids == [] then [] else [Renamed(kids[0], names)] + RenamedIn(kids[1..], names)
  }

  // Later names do not touch a part of the tree whose labels are all settled.
  lemma {:induction false} RenamedIsStable(
    n: Node<Id>, aliased: set<Id>, names: map<Id, string>, more: map<Id, string>)
    requires names.Keys <= more.Keys <= aliased && forall a <- names :: more[a] == names[a]
    requires Anchors(n) * aliased <= names.Keys && Targets(n) <= names.Keys
    ensures Renamed(n, names) == Renamed(n, more)
    decreases n, 1
  {
    if n.Node? {
      RenamedInIsStable(n.kids, aliased, names, more);
      if n.anchor.Some? {
        assert n.anchor.value in Anchors(n);
      }
    }
  }

  lemma {:induction false} RenamedInIsStable(
    kids: seq<Node<Id>>, aliased: set<Id>, names: map<Id, string>, more: map<Id, string>)
    requires names.Keys <= more.Keys <= aliased && forall a <- names :: more[a] == names[a]
    requires AnchorsIn(kids) * aliased <= names.Keys && TargetsIn(kids) <= names.Keys
    ensures RenamedIn(kids, names) == RenamedIn(kids, more)
    decreases kids, 0
  {
    if kids != [] {
      RenamedIsStable(kids[0], aliased, names, more);
      RenamedInIsStable(kids[1..], aliased, names, more);
    }
  }

  lemma RenamedSnoc(kids: seq<Node<Id>>, kid: Node<Id>, names: map<Id, string>)
    ensures RenamedIn(kids + [kid], names) == RenamedIn(kids, names) + [Renamed(kid, names)]
  {
  }

  lemma {:induction false} SplitScope(kids: seq<Node<Id>>, scope: set<Id>, i: nat)
    requires ScopedIn(kids, scope) && i < |kids|
    ensures Scoped(kids[i], scope + AnchorsIn(kids[..i]))
    ensures AnchorsIn(kids[..i + 1]) == AnchorsIn(kids[..i]) + Anchors(kids[i])
    ensures TargetsIn(kids[..i + 1]) == TargetsIn(kids[..i]) + Targets(kids[i])
  {
    if i == 0 {
      assert kids[..1][1..] == [] && kids[..0] == [];
      assert scope + AnchorsIn(kids[..0]) == scope;
    } else {
      SplitScope(kids[1..], scope + Anchors(kids[0]), i - 1);
      assert kids[..i][1..] == kids[1..][..i - 1];
      assert kids[..i + 1][1..] == kids[1..][..i];
      assert scope + AnchorsIn(kids[..i])
          == scope + Anchors(kids[0]) + AnchorsIn(kids[1..][..i - 1]);
    }
  }

  // The names in use are exactly `id001` up to the counter, each for one marker.
  ghost predicate Named(names: map<Id, string>, counter: nat, aliased: set<Id>) {
    && names.Keys <= aliased
    && Injective(names)
    && |names| == counter
    && forall a <- names :: Numbered(names[a], counter)
  }

  ghost predicate Numbered(name: string, counter: nat) {
    exists k :: 1 <= k <= counter && name == AnchorName(k)
  }

  lemma FreshName(names: map<Id, string>, counter: nat, aliased: set<Id>, a: Id)
    requires Named(names, counter, aliased) && a in names
    ensures names[a] != AnchorName(counter + 1) && Numbered(names[a], counter + 1)
  {
    var k :| 1 <= k <= counter && names[a] == AnchorName(k);
    NamesDiffer(k, counter + 1);
  }

  lemma AllFresh(names: map<Id, string>, counter: nat, aliased: set<Id>, name: string)
    requires Named(names, counter, aliased) && name == AnchorName(counter + 1)
    ensures forall a <- names :: names[a] != name && Numbered(names[a], counter + 1)
  {
    forall a <- names ensures names[a] != name && Numbered(names[a], counter + 1) {
      FreshName(names, counter, aliased, a);
    }
  }

  lemma LastIsNumbered(name: string, counter: nat)
    requires counter >= 1 && name == AnchorName(counter)
    ensures Numbered(name, counter)
  {
  }

  lemma NextName(
    names: map<Id, string>, counter: nat, aliased: set<Id>, marker: Id, name: string)
    requires Named(names, counter, aliased) && marker in aliased && marker !in names
    requires name == AnchorName(counter + 1)
    ensures Named(names[marker := name], counter + 1, aliased)
  {
    AllFresh(names, counter, aliased, name);
    OneMoreName(names, marker, name);
    LastIsNumbered(name, counter + 1);
  }

  lemma OneMoreName(names: map<Id, string>, marker: Id, name: string)
    requires Injective(names) && marker !in names && forall a <- names :: names[a] != name
    ensures Injective(names[marker := name]) && |names[marker := name]| == |names| + 1
  {
    assert names[marker := name].Keys == names.Keys + {marker};
  }

  lemma NewKey(names: map<Id, string>, marker: Id, name: string, aliased: set<Id>)
    requires marker !in names && marker in aliased
    ensures names[marker := name].Keys == names.Keys + ({marker} * aliased)
    ensures Extends(names, names[marker := name])
  {
  }

  lemma Unnamed(marker: Option<Id>, names: map<Id, string>, aliased: set<Id>)
    requires names.Keys <= aliased && (marker == None || marker.value !in aliased)
    ensures names.Keys == names.Keys + (MarkerSet(marker) * aliased) && MarkerName(marker, names) == None
  {
  }

  predicate Extends(names: map<Id, string>, more: map<Id, string>) {
    forall a <- names :: a in more && more[a] == names[a]
  }

  // The first `i` children are renamed for good; `here` is what is defined so far.
  ghost predicate Settled(
    kids: seq<Node<Id>>, i: nat, scope: set<Id>, here: set<Id>,
    names: map<Id, string>, aliased: set<Id>, out: seq<Node<string>>)
  {
    && i <= |kids|
    && here == scope + AnchorsIn(kids[..i])
    && names.Keys == here * aliased
    && TargetsIn(kids[..i]) <= names.Keys
    && out == RenamedIn(kids[..i], names)
  }

  lemma SettledStart(kids: seq<Node<Id>>, scope: set<Id>, names: map<Id, string>, aliased: set<Id>)
    requires names.Keys == scope * aliased
    ensures Settled(kids, 0, scope, scope, names, aliased, [])
  {
    assert kids[..0] == [];
  }

  lemma KidScope(
    kids: seq<Node<Id>>, i: nat, scope: set<Id>, here: set<Id>,
    names: map<Id, string>, aliased: set<Id>, out: seq<Node<string>>)
    requires Settled(kids, i, scope, here, names, aliased, out)
    requires ScopedIn(kids, scope) && i < |kids|
    ensures Scoped(kids[i], here)
    ensures Targets(kids[i]) <= TargetsIn(kids)
    ensures names.Keys == here * aliased
  {
    SplitScope(kids, scope, i);
    KidTargets(kids, i);
  }

  lemma SettledMore(
    kids: seq<Node<Id>>, i: nat, scope: set<Id>, here: set<Id>, before: map<Id, string>,
    names: map<Id, string>, aliased: set<Id>, out: seq<Node<string>>, kid: Node<string>)
    requires Settled(kids, i, scope, here, before, aliased, out)
    requires ScopedIn(kids, scope) && i < |kids| && Targets(kids[i]) <= aliased
    requires names.Keys == (here + Anchors(kids[i])) * aliased
    requires Extends(before, names) && kid == Renamed(kids[i], names)
    ensures Settled(kids, i + 1, scope, here + Anchors(kids[i]), names, aliased, out + [kid])
  {
    SplitScope(kids, scope, i);
    TargetsAreDefined(kids[i], here);
    RenamedInIsStable(kids[..i], aliased, before, names);
    RenamedSnoc(kids[..i], kids[i], names);
    TakeMore(kids, i);
  }

  lemma SettledAll(
    kids: seq<Node<Id>>, scope: set<Id>, here: set<Id>,
    names: map<Id, string>, aliased: set<Id>, out: seq<Node<string>>)
    requires Settled(kids, |kids|, scope, here, names, aliased, out)
    ensures names.Keys == (scope + AnchorsIn(kids)) * aliased
    ensures out == RenamedIn(kids, names)
  {
    TakeAll(kids);
  }

  lemma MarkerNamed(
    n: Node<Id>, scope: set<Id>, names0: map<Id, string>, names1: map<Id, string>, aliased: set<Id>)
    requires n.Node? && names0.Keys == scope * aliased
    requires names1.Keys == names0.Keys + (MarkerSet(n.anchor) * aliased)
    ensures names1.Keys == (scope + OwnAnchor(n)) * aliased
  {
  }

  lemma NodeNamed(
    n: Node<Id>, scope: set<Id>, names0: map<Id, string>, names1: map<Id, string>,
    names2: map<Id, string>, aliased: set<Id>, anchor: Option<string>, out: seq<Node<string>>)
    requires n.Node? && Extends(names0, names1) && Extends(names1, names2)
    requires names1.Keys == (scope + OwnAnchor(n)) * aliased
    requires names2.Keys == (scope + OwnAnchor(n) + AnchorsIn(n.kids)) * aliased
    requires anchor == MarkerName(n.anchor, names1) && out == RenamedIn(n.kids, names2)
    ensures Extends(names0, names2)
    ensures names2.Keys == (scope + Anchors(n)) * aliased
    ensures Renamed(n, names2) == Node(n.shape, n.tag, anchor, out)
  {
    assert scope + Anchors(n) == scope + OwnAnchor(n) + AnchorsIn(n.kids);
  }

  class Naming {
    const aliased: set<Id>
    var names: map<Id, string>
    var counter: nat

    constructor (aliased: set<Id>)
      ensures this.aliased == aliased && names == map[] && Valid()
    {
      this.aliased := aliased;
      names, counter := map[], 0;
    }

    ghost predicate Valid()
      reads this
    {
      Named(names, counter, aliased)
    }

    // `scope` is what the document has defined before `n`.
    method NameAnchors(n: Node<Id>, ghost scope: set<Id>) returns (m: Node<string>)
      requires Valid() && Scoped(n, scope) && Targets(n) <= aliased
      requires names.Keys == scope * aliased
      modifies this
      ensures Valid()
      ensures names.Keys == (scope + Anchors(n)) * aliased
      ensures Extends(old(names), names)
      ensures m == Renamed(n, names)
      ensures counter >= old(counter) && AnchorsOf(m) == NamesBetween(old(counter), counter)
      decreases n, 1
    {
      match n {
        case Alias(target) =>
          m := Alias(if target in names then names[target] else Decimal(target));
        case Node(shape, tag, marker, kids) =>
          NewMarker(n, scope, names, aliased);
          var anchor := NameMarker(marker);
          ghost var before, named := names, counter;
          MarkerNamed(n, scope, old(names), names, aliased);
          var out := NameKids(kids, scope + OwnAnchor(n));
          NodeNamed(n, scope, old(names), before, names, aliased, anchor, out);
          m := Node(shape, tag, anchor, out);
          NodeNamesGoOn(m, old(counter), named, counter);
      }
    }

    // The name of a marker that some alias uses; any other marker is dropped.
    method NameMarker(marker: Option<Id>) returns (anchor: Option<string>)
      requires Valid()
      modifies this
      ensures Valid() && Extends(old(names), names)
      ensures names.Keys == old(names).Keys + (MarkerSet(marker) * aliased)
      ensures anchor == MarkerName(marker, names)
      ensures marker.Some? && marker.value in aliased && marker.value !in old(names) ==>
                counter == old(counter) + 1 && anchor == Some(AnchorName(counter))
      ensures marker == None || marker.value !in aliased ==> counter == old(counter) && anchor == None
    {
      if marker == None || marker.value !in aliased {
        Unnamed(marker, names, aliased);
        return None;
      }
      if marker.value !in names {
        var name := AnchorName(counter + 1);
        NextName(names, counter, aliased, marker.value, name);
        NewKey(names, marker.value, name, aliased);
        counter := counter + 1;
        names := names[marker.value := name];
      }
      return Some(names[marker.value]);
    }

    method NameKids(kids: seq<Node<Id>>, ghost scope: set<Id>) returns (out: seq<Node<string>>)
      requires Valid() && ScopedIn(kids, scope) && TargetsIn(kids) <= aliased
      requires names.Keys == scope * aliased
      modifies this
      ensures Valid()
      ensures names.Keys == (scope + AnchorsIn(kids)) * aliased
      ensures Extends(old(names), names)
      ensures out == RenamedIn(kids, names)
      ensures counter >= old(counter) && AnchorsOfKids(out) == NamesBetween(old(counter), counter)
      decreases kids, 0
    {
      out := [];
      ghost var here := scope;
      SettledStart(kids, scope, names, aliased);
      for i := 0 to |kids|
        invariant Valid() && Extends(old(names), names)
        invariant Settled(kids, i, scope, here, names, aliased, out)
        invariant counter >= old(counter) && AnchorsOfKids(out) == NamesBetween(old(counter), counter)
      {
        KidScope(kids, i, scope, here, names, aliased, out);
        ghost var before, named := names, counter;
        var kid := NameAnchors(kids[i], here);
        AnchorsOfOneMore(out, kid);
        NamesGoOn(old(counter), named, counter);
        SettledMore(kids, i, scope, here, before, names, aliased, out, kid);
        out, here := out + [kid], here + Anchors(kids[i]);
      }
      SettledAll(kids, scope, here, names, aliased, out);
    }
  }

  // ----- Naming keeps what the tree shows and its scoping -----

  ghost function Owners(names: map<Id, string>): (r: map<string, Id>)
    requires Injective(names)
    ensures forall a <- names :: names[a] in r && r[names[a]] == a
  {
    map a | a in names :: names[a] := a
  }

  lemma {:induction false} RenamedShows(g: Graph, n: Node<Id>, id: Id, names: map<Id, string>)
    requires Closed(g) && id in g && Injective(names)
    requires Shows(g, n, id, Itself(g)) && Targets(n) <= names.Keys
    ensures Shows(g, Renamed(n, names), id, Owners(names))
  {
    if n.Node? {
      var ids := g[IdentityOf(g, id).value.base].kids;
      forall i | 0 <= i < |n.kids|
        ensures Shows(g, RenamedIn(n.kids, names)[i], ids[i], Owners(names))
      {
        KidTargets(n.kids, i);
        RenamedShows(g, n.kids[i], ids[i], names);
      }
    }
  }

  ghost function Image(names: map<Id, string>, s: set<Id>): set<string> {
    set a | a in s && a in names :: names[a]
  }

  lemma {:induction false} RenamedIsScoped(n: Node<Id>, scope: set<Id>, names: map<Id, string>)
    requires Scoped(n, scope) && Injective(names) && Targets(n) <= names.Keys
    ensures Scoped(Renamed(n, names), Image(names, scope))
    ensures Anchors(Renamed(n, names)) == Image(names, Anchors(n))
    ensures Targets(Renamed(n, names)) == Image(names, Targets(n))
    decreases n, 1
  {
    if n.Node? {
      RenamedInIsScoped(n.kids, scope + OwnAnchor(n), names);
      var m := Renamed(n, names);
      assert OwnAnchor(m) == Image(names, OwnAnchor(n));
      assert Image(names, scope) + OwnAnchor(m) == Image(names, scope + OwnAnchor(n));
    }
  }

  lemma {:induction false} RenamedInIsScoped(
    kids: seq<Node<Id>>, scope: set<Id>, names: map<Id, string>)
    requires ScopedIn(kids, scope) && Injective(names) && TargetsIn(kids) <= names.Keys
    ensures ScopedIn(RenamedIn(kids, names), Image(names, scope))
    ensures AnchorsIn(RenamedIn(kids, names)) == Image(names, AnchorsIn(kids))
    ensures TargetsIn(RenamedIn(kids, names)) == Image(names, TargetsIn(kids))
    decreases kids, 0
  {
    if kids != [] {
      RenamedIsScoped(kids[0], scope, names);
      RenamedInIsScoped(kids[1..], scope + Anchors(kids[0]), names);
      assert Image(names, scope + Anchors(kids[0]))
          == Image(names, scope) + Image(names, Anchors(kids[0]));
    }
  }

  // The tree unfolds to the object at every depth.
  ghost predicate UnfoldsTo(g: Graph, root: Node<string>, id: Id)
    requires Closed(g) && id in g
  {
    forall depth: nat :: UnfoldNode(root, root, depth) == UnfoldObject(g, id, depth)
  }

  // From the raw tree to the named one: what `represent_to_node` promises of its output.
  lemma NamedTreeIsFaithful(
    g: Graph, raw: Node<Id>, id: Id, aliased: set<Id>, names: map<Id, string>)
    requires Closed(g) && id in g && Injective(names)
    requires Lowered(g, raw, id, {}, Anchors(raw), {}, aliased)
    requires names.Keys == Anchors(raw) * aliased
    ensures WellAnchored(Renamed(raw, names))
    ensures UnfoldsTo(g, Renamed(raw, names), id)
  {
    TargetsAreDefined(raw, {});
    var root := Renamed(raw, names);
    RenamedShows(g, raw, id, names);
    RenamedIsScoped(raw, {}, names);
    assert Image(names, {}) == {};
    assert Image(names, Anchors(raw)) == Image(names, Targets(raw));
    ScopedIsInOrder(root, {});
    DefinedIsResolved(root, root);
    forall depth: nat ensures UnfoldNode(root, root, depth) == UnfoldObject(g, id, depth) {
      ShownUnfolds(g, root, id, root, id, Owners(names), depth);
    }
  }

  // And it writes what can be shared once.
  lemma NamedTreeShares(g: Graph, raw: Node<Id>, id: Id, names: map<Id, string>)
    requires Closed(g) && id in g && Injective(names) && Scoped(raw, {}) && Tracked(g, raw, id)
    ensures KeepsSharing(g, Renamed(raw, names), id)
  {
    TargetsAreDefined(raw, {});
    forall a <- Anchors(raw) ensures NodesOf(raw, a) == 1 {
      OneNodeEach(raw, {}, a);
    }
    assert SharesAll(g, raw, id);
  }

  // `represent_to_node`. On success the tree is well anchored and unfolds to the object
  // graph, cyclic or not, to every depth. It cannot fail on a graph of containers and
  // leaves with fewer objects than the depth limit, and there it can only fail for depth.
  // An object that can be shared is written once, whatever the graph, and the anchors are
  // `id001`, `id002` and so on down the document.
  method Represent(g: Graph, root: Id) returns (r: Result<Node<string>, Error>)
    requires Closed(g) && root in g
    ensures r.Ok? ==> WellAnchored(r.value)
    ensures r.Ok? ==> UnfoldsTo(g, r.value, root)
    ensures OwnersOnly(g) ==> r.Ok? || r == Err(TooDeep)
    ensures OwnersOnly(g) && |g| < 1000 ==> r.Ok?
    ensures r.Ok? ==> Nests(r.value, 1000) && NamedInOrder(r.value)
    ensures r.Ok? ==> KeepsSharing(g, r.value, root)
    ensures r.Err? ==> Explained(g, r.error, root, 0, {}) && (r.error == TooDeep ==> Deep(g, root, 1000))
  {
    hide Lowered, Tracked, Nests, NamedInOrder, WellAnchored, UnfoldsTo, KeepsSharing, OwnersOnly;
    var lower := new Lower(g);
    assert g.Keys - {} == g.Keys && |g.Keys| == |g|;
    var raw := lower.LowerObject(root, 0);
    if raw.Err? {
      return Err(raw.error);
    }
    var named := NameTree(g, raw.value, root, lower.aliased);
    return Ok(named);
  }

  method NameTree(g: Graph, raw: Node<Id>, root: Id, aliased: set<Id>) returns (named: Node<string>)
    requires Closed(g) && root in g
    requires Lowered(g, raw, root, {}, Anchors(raw), {}, aliased) && Tracked(g, raw, root) && Nests(raw, 1000)
    ensures WellAnchored(named) && UnfoldsTo(g, named, root) && KeepsSharing(g, named, root)
    ensures Nests(named, 1000) && NamedInOrder(named)
  {
    hide Nests, AnchorName, NamedInOrder;
    var naming := new Naming(aliased);
    named := naming.NameAnchors(raw, {});
    RenamedNests(raw, naming.names, 1000);
    AreNamedInOrder(named, naming.counter);
    NamedTreeIsFaithful(g, raw, root, aliased, naming.names);
    NamedTreeShares(g, raw, root, naming.names);
  }
}
