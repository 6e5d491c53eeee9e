/**
 The path trie of libs/opaleye-util/include/opaleye-util/path/Directory_tree.hpp and
 Directory_tree_node.hpp. A path is the sequence of elements its iterator yields: the root
 directory is "/", and a trailing slash yields a last element ".".
 */
module DirectoryTree {
  import opened Wrappers

  type Path = seq<string>

  const ROOT: Path := ["/"]

  /** A network root name such as "//host", which may precede the root directory. */
  predicate IsRootName(e: string) {
    |e| > 2 && e[0] == '/' && e[1] == '/'
  }

  predicate IsAbsolute(p: Path) {
    || (|p| >= 1 && p[0] == "/")
    || (|p| >= 2 && IsRootName(p[0]) && p[1] == "/")
  }

  /** Absolute without a root name: the paths the trie can hold. */
  predicate Rooted(p: Path) {
    |p| >= 1 && p[0] == "/"
  }

  function Parent(p: Path): Path
    requires |p| > 0
  {
    p[..|p| - 1]
  }

  function Last(p: Path): string
    requires |p| > 0
  {
    p[|p| - 1]
  }

  datatype MatchType = ParentPath | Exact | NoMatch

  // ---- The flat view ----

  /** A trie seen from outside: every position, and the data there if any. */
  type Contents<D> = map<Path, Option<D>>

  function AddPosition<D>(m: Contents<D>, p: Path): Contents<D> {
    if p in m then m else m[p := None]
  }

  /** Add the positions p[..1], ..., p[..n] that are missing, without data. */
  function WithPrefixes<D>(m: Contents<D>, p: Path, n: nat): Contents<D>
    requires n <= |p|
  {
    if n == 0 then m else AddPosition(WithPrefixes(m, p, n - 1), p[..n])
  }

  /** The walk along q starts at the root. */
  lemma WalkBegins<D>(m: Contents<D>, q: Path)
    requires Rooted(q) && ROOT in m
    ensures q[..1] == ROOT && WithPrefixes(m, q, 1) == m
  {
    assert q[..1] == ROOT;
    assert WithPrefixes(m, q, 0) == m;
  }

  function SetContents<D>(m: Contents<D>, p: Path, data: Option<D>): Contents<D> {
    WithPrefixes(m, p, |p|)[p := data]
  }

  /** The length of the longest prefix of q, at most n, that is a position. */
  function Deepest(keys: set<Path>, q: Path, n: nat): (k: nat)
    requires n <= |q|
    ensures k <= n && (k > 0 ==> q[..k] in keys)
    ensures forall j :: k < j <= n ==> q[..j] !in keys
  {
    if n == 0 || q[..n] in keys then n else Deepest(keys, q, n - 1)
  }

  /** q[..k] is the longest prefix of q among the positions. */
  predicate LongestPrefix(keys: set<Path>, q: Path, k: nat)
    requires k <= |q|
  {
    q[..k] in keys && forall j :: k < j <= |q| ==> q[..j] !in keys
  }

  /** The position a query finds. */
  function FindPath(keys: set<Path>, q: Path, mode: MatchType): Outcome<Option<Path>> {
    if !IsAbsolute(q) then DomainError
    else if !Rooted(q) then Returned(None)
    else
      var k := Deepest(keys, q, |q|);
      var dir := q[..k] + ["."];
      match mode
      case Exact => Returned(if k == |q| then Some(q) else None)
      case ParentPath => Returned(if k == |q| then Some(q) else if dir in keys then Some(dir) else None)
      case NoMatch => DomainError
  }

  // ---- The heap ----

  class Node<D> {
    const fullPath: Path
    const name: string
    const parent: Node?<D>
    var children: map<string, Node<D>>
    var data: Option<D>

    constructor (parent: Node?<D>, fullPath: Path)
      requires |fullPath| > 0
      ensures this.parent == parent && this.fullPath == fullPath && name == Last(fullPath)
      ensures children == map[] && data == None
    {
      this.parent := parent;
      this.fullPath := fullPath;
      name := Last(fullPath);
      children := map[];
      data := None;
    }

    /** `std::map::emplace` keeps an existing entry of the same name. */
    method CreateChild(childPath: Path) returns (child: Node<D>)
      requires |childPath| > 0
      modifies this`children
      ensures fresh(child) && child.parent == this && child.fullPath == childPath
      ensures child.name == Last(childPath) && child.children == map[] && child.data == None
      ensures children == map[child.name := child] + old(children)
    {
      child := new Node(this, childPath);
      if child.name !in children {
        children := children[child.name := child];
      }
    }

    function GetChildByName(name: string): Node?<D>
      reads this
    {
      if name in children then children[name] else null
    }
  }

  /** The node at each position. */
  type Nodes<!D> = map<Path, Node<D>>

  /** The children of each position. */
  type Links<!D> = map<Path, map<string, Node<D>>>

  /** The node at p records its own position, and parent and children agree with the positions. */
  ghost predicate NodeOk<D>(nodes: Nodes<D>, links: Links<D>, p: Path)
    requires p in nodes && p in links
  {
    && Rooted(p) && nodes[p].fullPath == p && nodes[p].name == Last(p)
    && (forall c :: c in links[p] ==> p + [c] in nodes && links[p][c] == nodes[p + [c]])
    && (if |p| == 1 then nodes[p].parent == null
        else && Parent(p) in nodes && nodes[p].parent == nodes[Parent(p)]
             && Parent(p) in links && Last(p) in links[Parent(p)])
  }

  ghost predicate WellLinked<D>(nodes: Nodes<D>, links: Links<D>) {
    && links.Keys == nodes.Keys && ROOT in nodes
    && (forall p {:trigger NodeOk(nodes, links, p)} :: p in nodes ==> NodeOk(nodes, links, p))
  }

  /** The links once `child` hangs at position p. */
  ghost function Hang<D>(links: Links<D>, p: Path, child: Node<D>): Links<D>
    requires |p| > 1 && Parent(p) in links
  {
    links[Parent(p) := links[Parent(p)][Last(p) := child]][p := map[]]
  }

  lemma OwnPositions<D>(nodes: Nodes<D>, links: Links<D>)
    requires WellLinked(nodes, links)
    ensures forall x :: x in nodes ==> Rooted(x) && nodes[x].fullPath == x
  {
    forall x | x in nodes
      ensures Rooted(x) && nodes[x].fullPath == x
    {
      assert NodeOk(nodes, links, x);
    }
  }

  lemma GrowKeeps<D>(nodes: Nodes<D>, links: Links<D>, p: Path, child: Node<D>, x: Path)
    requires WellLinked(nodes, links) && x in nodes
    requires |p| > 1 && p !in nodes && Parent(p) in nodes
    ensures NodeOk(nodes[p := child], Hang(links, p, child), x)
  {
    assert NodeOk(nodes, links, x);
    assert p == Parent(p) + [Last(p)];
  }

  /** Hanging a new leaf under its parent keeps everything in order. */
  lemma GrowLinks<D>(nodes: Nodes<D>, links: Links<D>, p: Path, child: Node<D>)
    requires WellLinked(nodes, links)
    requires |p| > 1 && Parent(p) in nodes && Last(p) !in links[Parent(p)]
    requires child.fullPath == p && child.name == Last(p) && child.parent == nodes[Parent(p)]
    ensures p !in nodes
    ensures WellLinked(nodes[p := child], Hang(links, p, child))
  {
    assert NodeOk(nodes, links, Parent(p));
    assert p !in nodes by {
      assert p in nodes ==> NodeOk(nodes, links, p);
    }
    var nodes' := nodes[p := child];
    var links' := Hang(links, p, child);
    forall x | x in nodes'
      ensures NodeOk(nodes', links', x)
    {
      if x != p {
        GrowKeeps(nodes, links, p, child, x);
      }
    }
  }

  /** Positions are closed under taking prefixes. */
  lemma {:induction false} PrefixClosed<D>(nodes: Nodes<D>, links: Links<D>, q: Path, i: nat, j: nat)
    requires WellLinked(nodes, links) && 1 <= i <= j <= |q| && q[..j] in nodes
    ensures q[..i] in nodes
    decreases j
  {
    if i < j {
      assert NodeOk(nodes, links, q[..j]);
      assert Parent(q[..j]) == q[..j - 1];
      PrefixClosed(nodes, links, q, i, j - 1);
    }
  }

  /** So the walk from the root stops at the longest prefix that is a position. */
  lemma WalkStops<D>(nodes: Nodes<D>, links: Links<D>, q: Path, i: nat)
    requires WellLinked(nodes, links) && 1 <= i <= |q| && q[..i] in nodes
    requires i < |q| ==> q[..i + 1] !in nodes
    ensures Deepest(nodes.Keys, q, |q|) == i
  {
    var k := Deepest(nodes.Keys, q, |q|);
    if i < k {
      PrefixClosed(nodes, links, q, i + 1, k);
    }
  }

  class Tree<D> {
    var root: Node<D>
    ghost var nodes: Nodes<D>
    ghost var repr: set<Node<D>>

    ghost function Children(): Links<D>
      reads this, nodes.Values
    {
      map p | p in nodes :: nodes[p].children
    }

    ghost predicate Valid()
      reads this, nodes.Values
    {
      && ROOT in nodes && nodes[ROOT] == root && WellLinked(nodes, Children())
      && (nodes.Values <= repr)
    }

    ghost function View(): Contents<D>
      reads this, nodes.Values
    {
      map p | p in nodes :: nodes[p].data
    }

    constructor ()
      ensures Valid() && fresh(repr)
      ensures View() == map[ROOT := None]
    {
      var r := new Node<D>(null, ROOT);
      root := r;
      nodes := map[ROOT := r];
      repr := {r};
    }

    /** Create the missing child `Last(p)` of the node at the parent position of p. */
    method Grow(curr: Node<D>, p: Path) returns (child: Node<D>)
      requires Valid() && |p| > 1 && Parent(p) in nodes && curr == nodes[Parent(p)]
      requires Last(p) !in curr.children
      modifies this`nodes, this`repr, curr`children
      ensures Valid() && fresh(child) && p !in old(nodes) && repr == old(repr) + {child}
      ensures nodes == old(nodes)[p := child] && child.data == None
    {
      ghost var links := Children();
      OwnPositions(nodes, links);
      ghost var before := nodes;
      child := curr.CreateChild(p);
      GrowLinks(before, links, p, child);
      nodes := nodes[p := child];
      repr := repr + {child};
      forall x | x in nodes
        ensures nodes[x].children == Hang(links, p, child)[x]
      {
        if x != p && x != Parent(p) {
          assert nodes[x] == before[x] != curr;
        }
      }
      assert Children() == Hang(links, p, child);
    }

    /** The walk has come to the node at p. */
    ghost predicate Reached(curr: Node<D>, p: Path)
      reads this
    {
      p in nodes && curr == nodes[p] && curr in repr
    }

    /** One turn of the loop of `set_node`: the next node on the path, created if missing. */
    method Descend(curr: Node<D>, q: Path, i: nat) returns (child: Node<D>)
      requires Valid() && i < |q| && Reached(curr, q[..i])
      modifies this`nodes, this`repr, curr`children
      ensures Valid() && (forall n :: n in repr && n !in old(repr) ==> fresh(n))
      ensures forall p :: p in old(nodes) ==> p in nodes && nodes[p] == old(nodes[p])
      ensures Reached(child, q[..i + 1])
      ensures View() == AddPosition(old(View()), q[..i + 1])
    {
      ghost var next := q[..i + 1];
      assert Parent(next) == q[..i] && Last(next) == q[i];
      assert NodeOk(nodes, Children(), q[..i]);
      var found := curr.GetChildByName(q[i]);
      if found == null {
        child := Grow(curr, q[..i + 1]);
      } else {
        child := found;
        assert q[..i] + [q[i]] == next;
      }
    }

    /** The loop of `set_node`. */
    method Walk(q: Path) returns (curr: Node<D>)
      requires Valid() && Rooted(q)
      modifies this`nodes, this`repr, repr
      ensures Valid() && (forall n :: n in repr && n !in old(repr) ==> fresh(n))
      ensures forall p :: p in old(nodes) ==> p in nodes && nodes[p] == old(nodes[p])
      ensures q in nodes && curr == nodes[q]
      ensures View() == WithPrefixes(old(View()), q, |q|)
    {
      curr := root;
      var i := 1;
      ghost var before, nodes0, repr0 := View(), nodes, repr;
      WalkBegins(before, q);
      while i < |q|
        invariant 1 <= i <= |q| && Valid() && Reached(curr, q[..i])
        invariant forall n :: n in repr && n !in repr0 ==> fresh(n)
        invariant forall p :: p in nodes0 ==> p in nodes && nodes[p] == nodes0[p]
        invariant View() == WithPrefixes(before, q, i)
      {
        curr := Descend(curr, q, i);
        i := i + 1;
      }
      assert q[..i] == q;
    }

    /**
     `set_node`: walk the path, creating what is missing, then overwrite the data at its end.
     Only data at the path itself changes; existing nodes stay where they are.
     */
    method SetNode(fullPath: Path, data: Option<D>) returns (r: Outcome<Node?<D>>)
      requires Valid()
      modifies this`nodes, this`repr, repr
      ensures Valid() && (forall n :: n in repr && n !in old(repr) ==> fresh(n))
      ensures forall p :: p in old(nodes) ==> p in nodes && nodes[p] == old(nodes[p])
      ensures View() == if Rooted(fullPath) then SetContents(old(View()), fullPath, data) else old(View())
      ensures !IsAbsolute(fullPath) ==> r == DomainError
      ensures IsAbsolute(fullPath) && !Rooted(fullPath) ==> r == Returned(null)
      ensures Rooted(fullPath) ==> fullPath in nodes && r == Returned(nodes[fullPath])
    {
      if !IsAbsolute(fullPath) {
        return DomainError;
      }
      assert NodeOk(nodes, Children(), ROOT);
      if root.name != fullPath[0] {
        return Returned(null);
      }
      var curr := Walk(fullPath);
      SetData(curr, fullPath, data);
      r := Returned(curr);
    }

    method SetData(node: Node<D>, p: Path, data: Option<D>)
      requires Valid() && p in nodes && node == nodes[p]
      modifies node`data
      ensures Valid() && View() == old(View())[p := data]
    {
      OwnPositions(nodes, Children());
      ghost var links := Children();
      node.data := data;
      assert Children() == links;
    }

    /** The child of the node at p with a given name is the node at p + [name]. */
    lemma ChildAt(p: Path, name: string)
      requires Valid() && p in nodes
      ensures nodes[p].GetChildByName(name) == if p + [name] in nodes then nodes[p + [name]] else null
    {
      assert NodeOk(nodes, Children(), p);
      var q := p + [name];
      if q in nodes {
        assert NodeOk(nodes, Children(), q);
        assert Parent(q) == p && Last(q) == name;
      }
    }

    /** The loop of `find_match`: the deepest node on the way to q. */
    method Search(q: Path) returns (curr: Node<D>, i: nat)
      requires Valid() && Rooted(q)
      ensures 1 <= i <= |q| && i == Deepest(nodes.Keys, q, |q|)
      ensures q[..i] in nodes && curr == nodes[q[..i]]
    {
      curr := root;
      i := 1;
      assert q[..1] == ROOT;
      while i < |q|
        invariant 1 <= i <= |q|
        invariant q[..i] in nodes && curr == nodes[q[..i]]
      {
        ChildAt(q[..i], q[i]);
        assert q[..i] + [q[i]] == q[..i + 1];
        var next := curr.GetChildByName(q[i]);
        if next == null {
          break;
        }
        curr := next;
        i := i + 1;
      }
      WalkStops(nodes, Children(), q, i);
    }

    /** `find_match`. */
    method FindMatch(q: Path, mode: MatchType) returns (r: Outcome<Node?<D>>)
      requires Valid()
      ensures match FindPath(nodes.Keys, q, mode)
              case DomainError => r == DomainError
              case Returned(None) => r == Returned(null)
              case Returned(Some(p)) => p in nodes && r == Returned(nodes[p])
      ensures r == DomainError <==> !IsAbsolute(q) || (Rooted(q) && mode == NoMatch)
      ensures IsAbsolute(q) && !Rooted(q) ==> r == Returned(null)
      ensures Rooted(q) && q in nodes && mode != NoMatch ==> r == Returned(nodes[q])
      ensures Rooted(q) && q !in nodes && mode == Exact ==> r == Returned(null)
      ensures Rooted(q) && q !in nodes && mode == ParentPath ==>
                exists k :: 1 <= k < |q| && LongestPrefix(nodes.Keys, q, k)
                            && r == Returned(if q[..k] + ["."] in nodes then nodes[q[..k] + ["."]] else null)
    {
      if !IsAbsolute(q) {
        return DomainError;
      }
      OwnPositions(nodes, Children());
      assert NodeOk(nodes, Children(), ROOT);
      if root.name != q[0] {
        return Returned(null);
      }
      var node, i := Search(q);
      assert LongestPrefix(nodes.Keys, q, i);
      var curr: Node?<D> := node;
      if i < |q| && mode == ParentPath {
        ChildAt(q[..i], ".");
        curr := node.GetChildByName(".");
      }
      assert q[..|q|] == q;
      if curr != null {
        match mode
        case ParentPath =>
          if curr.fullPath == q || Last(curr.fullPath) == "." {
            return Returned(curr);
          }
        case Exact =>
          if curr.fullPath == q {
            return Returned(curr);
          }
        case NoMatch =>
          return DomainError;
      }
      r := Returned(null);
    }
  }
}
