/** The walk that finds definitions in a syntax tree, and the upward walk that
    names the class around one. A node is identified by its path: the child
    indices that lead to it from the root. */
module CodeChunker {
  import opened Options

  /** `name` is what the node's identifier lookup gives. */
  datatype Node = Node(kind: string, name: Option<string>, children: seq<Node>)

  datatype Grammar = Grammar(classTypes: set<string>, functionTypes: set<string>, methodTypes: set<string>)

  datatype Kind = Class | Method | Function

  type Path = seq<nat>

  /** A yielded definition, with the class name passed down to it. */
  datatype Found = Found(kind: Kind, name: Option<string>, path: Path, className: Option<string>)

  /** An empty class name is as good as none. */
  predicate Truthy(s: Option<string>) {
    s.Some? && s.value != ""
  }

  function KindOf(n: Node, g: Grammar, className: Option<string>): Option<Kind> {
    if n.kind in g.classTypes then Some(Class)
    else if n.kind in g.methodTypes then Some(Method)
    else if n.kind in g.functionTypes then Some(if Truthy(className) then Method else Function)
    else None
  }

  predicate IsDefinition(n: Node, g: Grammar) {
    n.kind in g.classTypes || n.kind in g.methodTypes || n.kind in g.functionTypes
  }

  function WalkDefinitions(n: Node, g: Grammar, className: Option<string>, at: Path): seq<Found>
    decreases n
  {
    var kind := KindOf(n, g, className);
    if kind == None then
      WalkChildren(n.children, 0, g, className, at)
    else
      [Found(kind.value, n.name, at, className)] +
      if kind.value == Class then WalkChildren(n.children, 0, g, n.name, at) else []
  }

  function WalkChildren(ns: seq<Node>, i: nat, g: Grammar, className: Option<string>, at: Path): seq<Found>
    decreases ns
  {
    if ns == [] then []
    else WalkDefinitions(ns[0], g, className, at + [i]) + WalkChildren(ns[1..], i + 1, g, className, at)
  }

  // ---- the tree by paths

  predicate InTree(root: Node, p: Path)
    decreases p
  {
    p == [] || (p[0] < |root.children| && InTree(root.children[p[0]], p[1..]))
  }

  function At(root: Node, p: Path): Node
    requires InTree(root, p)
    decreases p
  {
    if p == [] then root else At(root.children[p[0]], p[1..])
  }

  lemma {:induction false} PrefixInTree(root: Node, p: Path, k: nat)
    requires InTree(root, p) && k <= |p|
    ensures InTree(root, p[..k])
    decreases p
  {
    if k > 0 {
      PrefixInTree(root.children[p[0]], p[1..], k - 1);
      assert p[..k][1..] == p[1..][..k - 1];
    }
  }

  /** A function or method whose body the walk does not enter. */
  predicate Sealed(n: Node, g: Grammar) {
    n.kind !in g.classTypes && (n.kind in g.methodTypes || n.kind in g.functionTypes)
  }

  /** Definitions with no function or method among their proper ancestors. */
  predicate Visible(root: Node, p: Path, g: Grammar)
    requires InTree(root, p)
    decreases p
  {
    if p == [] then IsDefinition(root, g)
    else !Sealed(root, g) && Visible(root.children[p[0]], p[1..], g)
  }

  /** The name of the nearest class above `p`, and `outer` above the root. */
  function Enclosing(root: Node, p: Path, g: Grammar, outer: Option<string>): Option<string>
    requires InTree(root, p)
    decreases p
  {
    if p == [] then outer
    else Enclosing(root.children[p[0]], p[1..], g, if root.kind in g.classTypes then root.name else outer)
  }

  /** Following `.parent` upwards from a node to the nearest class. */
  method EnclosingClassName(root: Node, p: Path, g: Grammar) returns (name: Option<string>)
    requires InTree(root, p)
    ensures name == Enclosing(root, p, g, None)
  {
    var k: nat := |p|;
    assert p[..|p|] == p;
    while k > 0
      invariant k <= |p| && InTree(root, p[..k])
      invariant Enclosing(root, p[..k], g, None) == Enclosing(root, p, g, None)
    {
      PrefixInTree(root, p, k - 1);
      assert p[..k][..k - 1] == p[..k - 1];
      EnclosingStep(root, p[..k], g, None);
      k := k - 1;
      var current := At(root, p[..k]);
      if current.kind in g.classTypes {
        return current.name;
      }
    }
    return None;
  }

  lemma {:induction false} EnclosingStep(root: Node, p: Path, g: Grammar, outer: Option<string>)
    requires InTree(root, p) && p != [] && InTree(root, p[..|p| - 1])
    ensures var parent := At(root, p[..|p| - 1]);
            Enclosing(root, p, g, outer) ==
            if parent.kind in g.classTypes then parent.name else Enclosing(root, p[..|p| - 1], g, outer)
    decreases p
  {
    if |p| > 1 {
      var front := p[..|p| - 1];
      assert front[1..] == p[1..][..|p| - 2];
      EnclosingStep(root.children[p[0]], p[1..], g, if root.kind in g.classTypes then root.name else outer);
    }
  }

  // ---- what the walk yields

  /** `f` reports the definition at path `p` below `root`, itself at `at`. */
  ghost predicate Reports(f: Found, root: Node, p: Path, g: Grammar, outer: Option<string>, at: Path) {
    && InTree(root, p) && Visible(root, p, g) && f.path == at + p
    && f.className == Enclosing(root, p, g, outer)
    && Some(f.kind) == KindOf(At(root, p), g, f.className) && f.name == At(root, p).name
  }

  /** Everything yielded is a visible definition, with the right class name. */
  lemma {:induction false} YieldsAreVisible(n: Node, g: Grammar, cls: Option<string>, at: Path, k: nat)
    returns (p: Path)
    requires k < |WalkDefinitions(n, g, cls, at)|
    ensures Reports(WalkDefinitions(n, g, cls, at)[k], n, p, g, cls, at)
    decreases n
  {
    var kind := KindOf(n, g, cls);
    if kind != None && k == 0 {
      p := [];
      assert at + [] == at;
    } else {
      var inner := if kind == None then cls else n.name;
      p := ChildYieldsAreVisible(n, n.children, 0, g, inner, at, if kind == None then k else k - 1);
    }
  }

  lemma {:induction false} ChildYieldsAreVisible(parent: Node, ns: seq<Node>, i: nat, g: Grammar,
                                                 cls: Option<string>, at: Path, k: nat) returns (p: Path)
    requires i <= |parent.children| && ns == parent.children[i..]
    requires k < |WalkChildren(ns, i, g, cls, at)|
    ensures p != [] && i <= p[0] < |parent.children|
    ensures Reports(WalkChildren(ns, i, g, cls, at)[k], parent.children[p[0]], p[1..], g, cls, at + [p[0]])
    ensures at + [p[0]] + p[1..] == at + p
    decreases ns
  {
    var first := WalkDefinitions(ns[0], g, cls, at + [i]);
    if k < |first| {
      var q := YieldsAreVisible(ns[0], g, cls, at + [i], k);
      p := [i] + q;
    } else {
      p := ChildYieldsAreVisible(parent, ns[1..], i + 1, g, cls, at, k - |first|);
    }
  }

  /** Every visible definition is yielded. */
  lemma {:induction false} VisibleIsYielded(n: Node, g: Grammar, cls: Option<string>, at: Path, p: Path)
    returns (k: nat)
    requires InTree(n, p) && Visible(n, p, g)
    ensures k < |WalkDefinitions(n, g, cls, at)| && WalkDefinitions(n, g, cls, at)[k].path == at + p
    decreases n
  {
    if p == [] {
      k := 0;
      assert at + [] == at;
    } else {
      var inner := if n.kind in g.classTypes then n.name else cls;
      k := VisibleChildIsYielded(n.children, 0, g, inner, at, p);
      if n.kind in g.classTypes {
        k := k + 1;
      }
    }
  }

  lemma {:induction false} VisibleChildIsYielded(ns: seq<Node>, i: nat, g: Grammar, cls: Option<string>,
                                                 at: Path, p: Path) returns (k: nat)
    requires p != [] && i <= p[0] < i + |ns| && InTree(ns[p[0] - i], p[1..]) && Visible(ns[p[0] - i], p[1..], g)
    ensures k < |WalkChildren(ns, i, g, cls, at)| && WalkChildren(ns, i, g, cls, at)[k].path == at + p
    decreases ns
  {
    if p[0] == i {
      k := VisibleIsYielded(ns[0], g, cls, at + [i], p[1..]);
      assert at + [i] + p[1..] == at + p;
    } else {
      k := VisibleChildIsYielded(ns[1..], i + 1, g, cls, at, p);
      k := k + |WalkDefinitions(ns[0], g, cls, at + [i])|;
    }
  }

  /** Document order: an ancestor before its descendants, an earlier sibling's
      subtree before a later one's. */
  predicate Precedes(p: Path, q: Path)
    decreases p
  {
    q != [] && (p == [] || p[0] < q[0] || (p[0] == q[0] && Precedes(p[1..], q[1..])))
  }

  ghost predicate InOrder(fs: seq<Found>) {
    forall j, k :: 0 <= j < k < |fs| ==> Precedes(fs[j].path, fs[k].path)
  }

  ghost predicate Below(fs: seq<Found>, at: Path) {
    forall k :: 0 <= k < |fs| ==> at <= fs[k].path
  }

  lemma {:induction false} PrecedesUnder(at: Path, p: Path, q: Path)
    ensures Precedes(at + p, at + q) == Precedes(p, q)
  {
    if at == [] {
      assert at + p == p && at + q == q;
    } else {
      PrecedesUnder(at[1..], p, q);
      assert (at + p)[1..] == at[1..] + p && (at + q)[1..] == at[1..] + q;
    }
  }

  lemma {:induction false} SiblingsPrecede(at: Path, i: nat, j: nat, p: Path, q: Path)
    requires i < j && at + [i] <= p && at + [j] <= q
    ensures Precedes(p, q)
  {
    PrecedesUnder(at, p[|at|..], q[|at|..]);
    assert p == at + p[|at|..] && q == at + q[|at|..];
    assert p[|at|] == i && q[|at|] == j;
  }

  /** The walk yields in document order, so each definition once. */
  lemma {:induction false} YieldsInOrder(n: Node, g: Grammar, cls: Option<string>, at: Path)
    ensures InOrder(WalkDefinitions(n, g, cls, at)) && Below(WalkDefinitions(n, g, cls, at), at)
    decreases n
  {
    var kind := KindOf(n, g, cls);
    ChildrenInOrder(n.children, 0, g, if kind == None then cls else n.name, at);
    if kind != None {
      var rest := if kind.value == Class then WalkChildren(n.children, 0, g, n.name, at) else [];
      forall k | 0 <= k < |rest| ensures Precedes(at, rest[k].path) {
        PrecedesUnder(at, [], rest[k].path[|at|..]);
        assert at + [] == at && rest[k].path == at + rest[k].path[|at|..];
      }
    }
  }

  /** Paths of yields from the children numbered `i` and up. */
  ghost predicate FromChild(fs: seq<Found>, at: Path, i: nat) {
    forall k :: 0 <= k < |fs| ==> |at| < |fs[k].path| && at <= fs[k].path && i <= fs[k].path[|at|]
  }

  lemma {:induction false} ChildrenInOrder(ns: seq<Node>, i: nat, g: Grammar, cls: Option<string>, at: Path)
    ensures InOrder(WalkChildren(ns, i, g, cls, at)) && FromChild(WalkChildren(ns, i, g, cls, at), at, i)
    decreases ns
  {
    if ns != [] {
      var first, rest := WalkDefinitions(ns[0], g, cls, at + [i]), WalkChildren(ns[1..], i + 1, g, cls, at);
      YieldsInOrder(ns[0], g, cls, at + [i]);
      ChildrenInOrder(ns[1..], i + 1, g, cls, at);
      forall j, k | 0 <= j < |first| && 0 <= k < |rest| ensures Precedes(first[j].path, rest[k].path) {
        var q := rest[k].path;
        assert at + [q[|at|]] <= q;
        SiblingsPrecede(at, i, q[|at|], first[j].path, q);
      }
    }
  }

  /** A class type makes a class; a method type, or a function type inside a named
      class, a method; any other function type a function. */
  ghost predicate KindFits(f: Found, root: Node, g: Grammar)
    requires InTree(root, f.path)
  {
    var kind := At(root, f.path).kind;
    match f.kind
    case Class => kind in g.classTypes
    case Method =>
      kind !in g.classTypes &&
      (kind in g.methodTypes || (kind in g.functionTypes && f.className.Some? && f.className.value != ""))
    case Function =>
      kind !in g.classTypes && kind !in g.methodTypes && kind in g.functionTypes &&
      (f.className.None? || f.className.value == "")
  }

  /** The walk from the root yields exactly the definitions with no function or
      method ancestor, in document order, and the class name passed down to
      each is the one the upward walk finds. */
  lemma {:induction false} WalkIsExact(root: Node, g: Grammar)
    ensures InOrder(WalkDefinitions(root, g, None, []))
    ensures forall p: Path :: InTree(root, p) && Visible(root, p, g) <==>
              exists f :: f in WalkDefinitions(root, g, None, []) && f.path == p
    ensures forall f :: f in WalkDefinitions(root, g, None, []) ==>
              InTree(root, f.path) && f.name == At(root, f.path).name &&
              f.className == Enclosing(root, f.path, g, None) &&
              Some(f.kind) == KindOf(At(root, f.path), g, f.className)
    ensures forall f :: f in WalkDefinitions(root, g, None, []) ==> InTree(root, f.path) && KindFits(f, root, g)
  {
    var fs := WalkDefinitions(root, g, None, []);
    YieldsInOrder(root, g, None, []);
    forall p: Path | InTree(root, p) && Visible(root, p, g) ensures exists f :: f in fs && f.path == p {
      var k := VisibleIsYielded(root, g, None, [], p);
      assert [] + p == p && fs[k] in fs;
    }
    forall f | f in fs ensures Reports(f, root, f.path, g, None, []) {
      var k :| 0 <= k < |fs| && fs[k] == f;
      var p := YieldsAreVisible(root, g, None, [], k);
      assert [] + p == p;
    }
  }
}
