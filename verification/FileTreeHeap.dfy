/**
 The tree as the program keeps it: nodes on the heap with child, sibling and parent
 pointers. The ghost fields hold the tree of FileTree.dfy and the node at each of its
 locations; `Rep` says that the pointers are those of that tree.
 */
module FileTreeHeap {
  import opened Seqs
  import opened Strings
  import opened FileTree
  import FileTreeSave

  // ----- Which node a pointer leads to

  // The k-th child of a node.
  function KidAt(t: Tree, at: Location, k: nat): Option<Location> {
    if at in t && k < |t[at].kids| then Some(Child(at, t[at].kids[k])) else None
  }

  function NextSibling(t: Tree, at: Location): Option<Location> {
    if at == [] || Parent(at) !in t then None
    else KidAt(t, Parent(at), IndexOf(t[Parent(at)].kids, at[|at| - 1]) + 1)
  }

  lemma {:induction false} IndexOfDistinct(s: seq<string>, k: nat)
    requires Distinct(s) && k < |s|
    ensures IndexOf(s, s[k]) == k
  {
    assert s[IndexOf(s, s[k])] == s[k];
  }

  // The sibling of the k-th child is the next child.
  lemma SiblingOfKid(t: Tree, at: Location, k: nat)
    requires WellFormed(t) && at in t && k < |t[at].kids|
    ensures NextSibling(t, Child(at, t[at].kids[k])) == KidAt(t, at, k + 1)
    ensures Child(at, t[at].kids[k]) in t
  {
    assert NodeOk(t, at);
    ChildParent(at, t[at].kids[k]);
    IndexOfDistinct(t[at].kids, k);
  }

  // Which pointers change when a child is appended.
  lemma InsertLinks(t: Tree, at: Location, name: string, kind: char, l: Location)
    requires WellFormed(t) && at in t && GoodName(name) && name !in t[at].kids && l in t
    ensures var r, c := Insert(t, at, name, kind), Child(at, name);
      && l != c && r[l].kind == t[l].kind && (l != [] ==> Parent(l) in t)
      && KidAt(r, l, 0) == (if l == at && t[at].kids == [] then Some(c) else KidAt(t, l, 0))
      && NextSibling(r, l) == (if t[at].kids != [] && l == Child(at, t[at].kids[|t[at].kids| - 1]) then Some(c)
                               else NextSibling(t, l))
  {
    var r, c, kids := Insert(t, at, name, kind), Child(at, name), t[at].kids;
    InsertKeeps(t, at, name, kind);
    ChildParent(at, name);
    assert NodeOk(t, l) && NodeOk(t, at);
    if l != [] && Parent(l) == at {
      assert l == Child(at, l[|l| - 1]);
      AppendIndex(kids, name, l[|l| - 1]);
      IndexOfDistinct(kids, |kids| - 1);
    }
  }

  lemma {:induction false} AppendIndex(kids: seq<string>, name: string, x: string)
    requires x in kids
    ensures IndexOf(kids + [name], x) == IndexOf(kids, x) < |kids|
  {
    if kids[0] != x {
      assert (kids + [name])[1..] == kids[1..] + [name];
      AppendIndex(kids[1..], name, x);
    }
  }

  lemma InsertedLinks(t: Tree, at: Location, name: string, kind: char)
    requires WellFormed(t) && at in t && GoodName(name) && name !in t[at].kids
    ensures var r, c := Insert(t, at, name, kind), Child(at, name);
      && c !in t && c in r && r[c].kind == kind && c != [] && Parent(c) == at && c[|c| - 1] == name
      && KidAt(r, c, 0) == None && NextSibling(r, c) == None && r.Keys == t.Keys + {c}
      && WellFormed(r)
  {
    InsertKeeps(t, at, name, kind);
    ChildParent(at, name);
    var kids := t[at].kids;
    assert NodeOk(t, at);
    assert (kids + [name])[|kids|] == name;
    assert Distinct(kids + [name]);
    IndexOfDistinct(kids + [name], |kids|);
  }

  // The neighbours of a child after another one has been unlinked.
  lemma UnlinkedPlace(kids: seq<string>, name: string, x: string)
    requires Distinct(kids) && name in kids && x in kids && x != name
    ensures var r, k, i := Without(kids, name), IndexOf(kids, name), IndexOf(kids, x);
      && k < |kids| && i < |kids| && i != k && |r| == |kids| - 1
      && IndexOf(r, x) == (if i < k then i else i - 1)
      && r == kids[..k] + kids[k + 1..]
  {
    hide IndexOf, Without;
    WithoutIndex(kids, name);
    WithoutFacts(kids, name);
    var r, k, i := Without(kids, name), IndexOf(kids, name), IndexOf(kids, x);
    assert i < |kids|;
    var m := if i < k then i else i - 1;
    assert r[m] == x;
    IndexOfDistinct(r, m);
  }

  // Which child pointer changes when a node is unlinked.
  lemma RemoveFirstKid(t: Tree, at: Location, l: Location)
    requires WellFormed(t) && at in t && at != [] && l in t && !(at <= l)
    ensures var r, p := Remove(t, at), Parent(at);
      && l in r && r[l].kind == t[l].kind && p in t && t[p].kids != []
      && KidAt(r, l, 0) == (if l == p && at == Child(p, t[p].kids[0]) then NextSibling(t, at) else KidAt(t, l, 0))
  {
    hide Without, IndexOf;
    var r, p, name := Remove(t, at), Parent(at), at[|at| - 1];
    assert NodeOk(t, at) && NodeOk(t, p);
    assert at == Child(p, name);
    var kids := t[p].kids;
    WithoutIndex(kids, name);
    ChildDiffer(p, kids, 0, name);
    if l == p {
      IndexOfDistinct(kids, 0);
    }
  }

  // Which sibling pointer changes when a node is unlinked.
  lemma RemoveSibling(t: Tree, at: Location, l: Location)
    requires WellFormed(t) && at in t && at != [] && l in t && !(at <= l)
    ensures NextSibling(Remove(t, at), l) ==
      if NextSibling(t, l) == Some(at) then NextSibling(t, at) else NextSibling(t, l)
  {
    hide Without, IndexOf;
    if l != [] {
      if Parent(l) == Parent(at) {
        RemoveNeighbour(t, at, l);
      } else {
        SiblingElsewhere(t, at, l);
      }
    }
  }

  function NameAt(kids: seq<string>, k: nat): Option<string> {
    if k < |kids| then Some(kids[k]) else None
  }

  // Unlinking a name: whoever had it as next neighbour has its next neighbour now.
  lemma NeighbourAfter(kids: seq<string>, name: string, x: string)
    requires Distinct(kids) && name in kids && x in kids && x != name
    ensures var next := NameAt(kids, IndexOf(kids, x) + 1);
      NameAt(Without(kids, name), IndexOf(Without(kids, name), x) + 1) ==
      if next == Some(name) then NameAt(kids, IndexOf(kids, name) + 1) else next
  {
    hide Without, IndexOf;
    UnlinkedPlace(kids, name, x);
    var left, k, next := Without(kids, name), IndexOf(kids, name), IndexOf(kids, x) + 1;
    assert kids[k] == name && kids[next - 1] == x;
    if next < k {
      assert left[next] == kids[next];
    } else if next == k {
      assert k < |left| ==> left[k] == kids[k + 1];
    } else if next < |kids| {
      assert left[next - 1] == kids[next] && kids[next] != name;
    }
  }

  lemma KidIsNamed(t: Tree, p: Location, k: nat)
    requires p in t
    ensures KidAt(t, p, k) == match NameAt(t[p].kids, k) case None => None case Some(x) => Some(Child(p, x))
  {
  }

  lemma RemoveNeighbour(t: Tree, at: Location, l: Location)
    requires WellFormed(t) && at in t && at != [] && l in t && l != [] && !(at <= l) && Parent(l) == Parent(at)
    ensures NextSibling(Remove(t, at), l) ==
      if NextSibling(t, l) == Some(at) then NextSibling(t, at) else NextSibling(t, l)
  {
    hide Without, IndexOf, KidAt;
    var p, name, x := Parent(at), at[|at| - 1], l[|l| - 1];
    assert NodeOk(t, at) && NodeOk(t, p) && NodeOk(t, l);
    assert at == Child(p, name) && l == Child(p, x) && !(at <= p);
    var r := Remove(t, at);
    var kids, left := t[p].kids, Without(t[p].kids, name);
    NeighbourAfter(kids, name, x);
    KidIsNamed(r, p, IndexOf(left, x) + 1);
    KidIsNamed(t, p, IndexOf(kids, x) + 1);
    KidIsNamed(t, p, IndexOf(kids, name) + 1);
    var next := NameAt(kids, IndexOf(kids, x) + 1);
    if next.Some? {
      ChildParent(p, next.value);
      ChildParent(p, name);
    }
  }

  lemma ChildDiffer(p: Location, kids: seq<string>, k: nat, name: string)
    ensures k < |kids| ==> (Child(p, kids[k]) == Child(p, name) <==> kids[k] == name)
  {
    ChildParent(p, name);
    if k < |kids| { ChildParent(p, kids[k]); }
  }

  lemma SiblingElsewhere(t: Tree, at: Location, l: Location)
    requires WellFormed(t) && at in t && at != [] && l in t && l != [] && !(at <= l) && Parent(l) != Parent(at)
    ensures NextSibling(t, l) != Some(at)
    ensures NextSibling(Remove(t, at), l) == NextSibling(t, l)
  {
    assert NodeOk(t, l);
    assert !(at <= Parent(l));
    var q := Parent(l);
    var next := IndexOf(t[q].kids, l[|l| - 1]) + 1;
    if next < |t[q].kids| { ChildParent(q, t[q].kids[next]); }
  }

  lemma WalkStep(t: Tree, at: Location, token: string, tokens: seq<string>, newNode: bool)
    ensures Walk(t, at, [token] + tokens, newNode) ==
      if token == "." then Walk(t, at, tokens, newNode)
      else if token == ".." then Walk(t, Parent(at), tokens, newNode)
      else if at in t && token in t[at].kids then Walk(t, Child(at, token), tokens, newNode)
      else if newNode && tokens == [] then Found(at)
      else Failed(NOT_FOUND)
  {
    assert ([token] + tokens)[1..] == tokens;
  }

  lemma WalkDone(t: Tree, at: Location, newNode: bool)
    ensures Walk(t, at, [], newNode) == if newNode then Failed(ALREADY_EXISTS) else Found(at)
  {
  }

  lemma NoTokens()
    ensures Tokens("", SLASH) == []
  {
  }

  class Node {
    var name: string
    var kind: char
    var child: Node?
    var sibling: Node?
    var parent: Node?

    constructor (name: string, kind: char, parent: Node?)
      ensures Holds(name, kind, null, null, parent)
    {
      this.name, this.kind, this.parent := name, kind, parent;
      child, sibling := null, null;
    }

    ghost predicate Holds(name: string, kind: char, child: Node?, sibling: Node?, parent: Node?)
      reads this
    {
      this.name == name && this.kind == kind && this.child == child && this.sibling == sibling && this.parent == parent
    }
  }

  class FileSystem {
    var root: Node
    var cwd: Node

    ghost var t: Tree
    ghost var nodes: map<Location, Node>
    ghost var cwdAt: Location

    static ghost function Ref(nodes: map<Location, Node>, at: Option<Location>): Node? {
      if at.Some? && at.value in nodes then nodes[at.value] else null
    }

    // The node at a location has the pointers the tree asks for.
    static ghost predicate NodeRep(t: Tree, nodes: map<Location, Node>, at: Location)
      requires at in nodes && at in t
      reads nodes[at]
    {
      nodes[at].Holds(NameOf(at), t[at].kind, Ref(nodes, KidAt(t, at, 0)), Ref(nodes, NextSibling(t, at)),
                      Ref(nodes, Some(Parent(at))))
    }

    static ghost predicate Injective(nodes: map<Location, Node>) {
      forall l, m {:trigger nodes[l], nodes[m]} :: l in nodes && m in nodes && nodes[l] == nodes[m] ==> l == m
    }

    static ghost predicate Represents(nodes: map<Location, Node>, t: Tree)
      reads nodes.Values
    {
      && WellFormed(t) && nodes.Keys == t.Keys && Injective(nodes)
      && forall at {:trigger NodeRep(t, nodes, at)} :: at in nodes ==> NodeRep(t, nodes, at)
    }

    ghost predicate Rep()
      reads this, nodes.Values
    {
      Represents(nodes, t) && root == nodes[[]]
    }

    // The working directory is a node of the tree.
    ghost predicate CwdRep()
      reads this
    {
      cwdAt in nodes && cwd == nodes[cwdAt]
    }

    static function NameOf(at: Location): string {
      if at == [] then "/" else at[|at| - 1]
    }

    // initialize
    constructor ()
      ensures Rep() && CwdRep() && t == ROOT_ONLY && cwdAt == [] && fresh(nodes.Values)
    {
      var node := new Node("/", 'D', null);
      root, cwd := node, node;
      t, nodes, cwdAt := ROOT_ONLY, map[[] := node], [];
      new;
      root.parent := root;
      StartLive();
    }

    // ----- Walking

    method JumpToRoot(from: Node, ghost at: Location) returns (node: Node)
      requires Rep() && at in nodes && from == nodes[at]
      ensures node == root
    {
      node := from;
      ghost var l := at;
      assert NodeRep(t, nodes, l);
      while node.parent != node
        invariant l in nodes && node == nodes[l] && NodeRep(t, nodes, l)
        decreases |l|
      {
        assert NodeOk(t, l);
        node := node.parent;
        l := Parent(l);
        assert NodeRep(t, nodes, l);
      }
      assert NodeOk(t, l);
    }

    // The search for a matching child.
    method FindChild(nwd: Node, ghost at: Location, token: string) returns (found: Node?)
      requires Rep() && at in nodes && nwd == nodes[at]
      ensures found == if token in t[at].kids then Ref(nodes, Some(Child(at, token))) else null
      ensures token in t[at].kids ==> Child(at, token) in nodes
    {
      assert NodeRep(t, nodes, at) && NodeOk(t, at);
      var currentChild := nwd.child;
      ghost var k := 0;
      ghost var kids := t[at].kids;
      while currentChild != null
        invariant k <= |kids| && currentChild == Ref(nodes, KidAt(t, at, k))
        invariant forall j :: 0 <= j < k ==> kids[j] != token
        decreases |kids| - k
      {
        ghost var c := Child(at, kids[k]);
        SiblingOfKid(t, at, k);
        ChildParent(at, kids[k]);
        assert NodeRep(t, nodes, c);
        if token == currentChild.name {
          return currentChild;
        }
        currentChild := currentChild.sibling;
        k := k + 1;
      }
      KidEnd(at, k);
      found := null;
    }

    lemma ParentNode(l: Location)
      requires Rep() && l in nodes
      ensures l in t && Parent(l) in nodes && nodes[l].parent == nodes[Parent(l)]
      ensures [] in nodes && root == nodes[[]]
    {
      assert NodeRep(t, nodes, l) && NodeOk(t, l);
    }

    // navigateToPath. On success nwd is the node found, or the one a new node is to go under.
    method NavigateToPath(from: Node, ghost at: Location, path: string, newNode: bool)
      returns (nwd: Node?, status: Status, ghost l: Location)
      requires Rep() && at in nodes && from == nodes[at]
      ensures status == SUCCESS ==> Navigate(t, at, path, newNode) == Found(l) && l in nodes && nwd == nodes[l]
      ensures status != SUCCESS ==> Navigate(t, at, path, newNode) == Failed(status) && nwd == null
    {
      hide Rep, Tokens, Walk;
      var node := from;
      l := at;
      ParentNode(l);
      if path != "" && path[0] == '/' {
        node := JumpToRoot(node, l);
        l := [];
      }
      var token, rest := NextToken(path, SLASH);
      ghost var start := l;
      while token.Some?
        invariant l in nodes && node == nodes[l]
        invariant Walk(t, start, Tokens(path, SLASH), newNode) ==
                  Walk(t, l, ListOf(token) + Tokens(rest, SLASH), newNode)
        invariant token.None? ==> rest == ""
        decreases if token.Some? then 1 + |rest| else 0
      {
        WalkStep(t, l, token.value, Tokens(rest, SLASH), newNode);
        ParentNode(l);
        if token.value == "." {
        } else if token.value == ".." {
          node := node.parent;
          l := Parent(l);
        } else {
          var found := FindChild(node, l, token.value);
          if found == null {
            if newNode {
              var next, _ := NextToken(rest, SLASH);
              if next.None? {
                return node, SUCCESS, l;
              }
            }
            return null, NOT_FOUND, l;
          }
          node := found;
          l := Child(l, token.value);
        }
        token, rest := NextToken(rest, SLASH);
      }
      WalkDone(t, l, newNode);
      assert ListOf(token) + Tokens(rest, SLASH) == [] by { NoTokens(); }
      if newNode {
        return null, ALREADY_EXISTS, l;
      }
      return node, SUCCESS, l;
    }

    // ----- Creating

    method ParseLowestFile(path: string) returns (lowest: string)
      requires Tokens(path, SLASH) != []
      ensures lowest == LastToken(path)
    {
      hide Tokens;
      NoTokens();
      var token, rest := NextToken(path, SLASH);
      lowest := "";
      ghost var seen := [];
      while token.Some?
        invariant Tokens(path, SLASH) == seen + ListOf(token) + Tokens(rest, SLASH)
        invariant token.None? ==> rest == "" && Tokens(rest, SLASH) == []
        invariant seen != [] ==> lowest == seen[|seen| - 1]
        decreases if token.Some? then 1 + |rest| else 0
      {
        lowest := token.value;
        seen := seen + [lowest];
        token, rest := NextToken(rest, SLASH);
      }
      assert seen == Tokens(path, SLASH);
    }

    // The last child of a node that has one.
    method LastChild(nwd: Node, ghost at: Location) returns (last: Node)
      requires Rep() && at in nodes && nwd == nodes[at] && t[at].kids != []
      ensures var kids := t[at].kids;
        Child(at, kids[|kids| - 1]) in nodes && last == nodes[Child(at, kids[|kids| - 1])]
    {
      KidNode(at, 0);
      last := nwd.child;
      ghost var k := 0;
      while last.sibling != null
        invariant k < |t[at].kids| && last == Ref(nodes, KidAt(t, at, k))
        invariant last.sibling == Ref(nodes, KidAt(t, at, k + 1))
        decreases |t[at].kids| - k
      {
        KidNode(at, k + 1);
        last := last.sibling;
        k := k + 1;
      }
      KidNode(at, k);
      if k + 1 < |t[at].kids| {
        KidNode(at, k + 1);
      }
    }

    lemma KidNode(at: Location, k: nat)
      requires Rep() && at in nodes && k < |t[at].kids|
      ensures var c := Child(at, t[at].kids[k]);
        && c in nodes && KidAt(t, at, k) == Some(c) && Ref(nodes, KidAt(t, at, k)) == nodes[c]
        && nodes[c].sibling == Ref(nodes, KidAt(t, at, k + 1)) && nodes[c].name == t[at].kids[k]
      ensures nodes[at].child == Ref(nodes, KidAt(t, at, 0))
    {
      SiblingOfKid(t, at, k);
      ChildParent(at, t[at].kids[k]);
      assert NodeRep(t, nodes, at) && NodeRep(t, nodes, Child(at, t[at].kids[k]));
    }

    // Makes node the last child of nwd.
    method HangUnder(nwd: Node, ghost at: Location, node: Node)
      requires Rep() && at in nodes && nwd == nodes[at]
      modifies nodes.Values
      ensures forall l {:trigger Appended(t, nodes, at, node, l)} :: l in nodes ==> Appended(t, nodes, at, node, l)
    {
      hide KidAt, NextSibling, WellFormed;
      assert NodeRep(t, nodes, at);
      FirstKid(at);
      if nwd.child == null {
        nwd.child := node;
      } else {
        var last := LastChild(nwd, at);
        last.sibling := node;
      }
      forall l | l in nodes ensures Appended(t, nodes, at, node, l) {
        assert old(NodeRep(t, nodes, l));
      }
    }

    // Appends a new child to a node.
    method Append(nwd: Node, ghost at: Location, name: string, kind: char)
      requires Rep() && at in nodes && nwd == nodes[at] && GoodName(name) && name !in t[at].kids
      modifies this`t, this`nodes, nodes.Values
      ensures Rep() && t == Insert(old(t), at, name, kind)
      ensures fresh(nodes.Values - old(nodes.Values))
      ensures forall l :: l in old(nodes) ==> l in nodes && nodes[l] == old(nodes)[l]
    {
      hide KidAt, NextSibling, WellFormed, Insert, NodeRep;
      ghost var c := Child(at, name);
      InsertedLinks(t, at, name, kind);
      WellFormedRoot(t);
      var workingFile := new Node(name, kind, nwd);
      HangUnder(nwd, at, workingFile);
      AppendRepresents(t, nodes, at, name, kind, workingFile);
      nodes := nodes[c := workingFile];
      t := Insert(t, at, name, kind);
    }

    lemma FirstKid(at: Location)
      requires Rep() && at in nodes
      ensures KidAt(t, at, 0).None? <==> t[at].kids == []
      ensures t[at].kids != [] ==>
        Child(at, t[at].kids[|t[at].kids| - 1]) in nodes && Ref(nodes, KidAt(t, at, 0)) != null
    {
      if t[at].kids != [] {
        KidNode(at, 0);
        KidNode(at, |t[at].kids| - 1);
      }
    }

    // A node after the pointer assignment that hangs a new node under `at`.
    static ghost predicate Appended(t: Tree, nodes: map<Location, Node>, at: Location, node: Node, l: Location)
      requires l in nodes && l in t && at in t
      reads nodes[l]
    {
      var kids := t[at].kids;
      nodes[l].Holds(NameOf(l), t[l].kind,
                     if kids == [] && l == at then node else Ref(nodes, KidAt(t, l, 0)),
                     if kids != [] && l == Child(at, kids[|kids| - 1]) then node else Ref(nodes, NextSibling(t, l)),
                     Ref(nodes, Some(Parent(l))))
    }

    static lemma AppendedRep(t: Tree, nodes: map<Location, Node>, at: Location, name: string, kind: char, node: Node,
                             l: Location)
      requires WellFormed(t) && nodes.Keys == t.Keys && at in t && l in t
      requires GoodName(name) && name !in t[at].kids && Appended(t, nodes, at, node, l)
      ensures l != Child(at, name)
      ensures NodeRep(Insert(t, at, name, kind), nodes[Child(at, name) := node], l)
    {
      InsertLinks(t, at, name, kind, l);
      InsertedLinks(t, at, name, kind);
      LinksStay(t, l);
      hide KidAt, NextSibling, WellFormed;
    }

    static lemma AppendRepresents(t: Tree, nodes: map<Location, Node>, at: Location, name: string, kind: char,
                                  node: Node)
      requires WellFormed(t) && nodes.Keys == t.Keys && Injective(nodes) && at in t
      requires GoodName(name) && name !in t[at].kids
      requires node !in nodes.Values && node.Holds(name, kind, null, null, nodes[at])
      requires forall l {:trigger Appended(t, nodes, at, node, l)} :: l in nodes ==> Appended(t, nodes, at, node, l)
      ensures Represents(nodes[Child(at, name) := node], Insert(t, at, name, kind))
    {
      hide WellFormed, KidAt, NextSibling, Insert;
      var c, r := Child(at, name), Insert(t, at, name, kind);
      var nodes' := nodes[c := node];
      InsertedLinks(t, at, name, kind);
      assert NodeRep(r, nodes', c);
      hide NodeRep, Appended;
      forall l | l in nodes' ensures NodeRep(r, nodes', l) {
        if l != c {
          AppendedRep(t, nodes, at, name, kind, node, l);
        }
      }
    }

    // The links of a node lead to nodes.
    static lemma LinksStay(t: Tree, l: Location)
      requires WellFormed(t) && l in t
      ensures KidAt(t, l, 0).Some? ==> KidAt(t, l, 0).value in t
      ensures NextSibling(t, l).Some? ==> NextSibling(t, l).value in t
      ensures Parent(l) in t
    {
      assert NodeOk(t, l) && NodeOk(t, Parent(l));
    }

    // Every node stays where it is.
    static ghost predicate Extends(nodes: map<Location, Node>, nodes': map<Location, Node>) {
      forall l :: l in nodes ==> l in nodes' && nodes'[l] == nodes[l]
    }

    // newFile: navigate, append, name it after the last token.
    method NewFile(from: Node, ghost fromAt: Location, path: string, kind: char) returns (status: Status)
      requires Rep() && fromAt in nodes && from == nodes[fromAt]
      modifies this`t, this`nodes, nodes.Values
      ensures Rep() && fresh(nodes.Values - old(nodes.Values)) && Extends(old(nodes), nodes)
      ensures FileTree.NewFile(old(t), fromAt, path, kind) == Outcome(status, t)
    {
      hide Rep, Navigate, Tokens, Insert;
      ghost var at;
      var nwd;
      nwd, status, at := NavigateToPath(from, fromAt, path, true);
      if status != SUCCESS {
        return;
      }
      RepTree();
      NavigateStays(t, fromAt, path, true);
      var filename := ParseLowestFile(path);
      Append(nwd, at, filename, kind);
    }

    lemma RepTree()
      requires Rep()
      ensures WellFormed(t) && nodes.Keys == t.Keys && root == nodes[[]]
    {
    }

    method Mkdir(from: Node, ghost at: Location, path: Option<string>) returns (status: Status)
      requires Rep() && at in nodes && from == nodes[at]
      modifies this`t, this`nodes, nodes.Values
      ensures Rep() && fresh(nodes.Values - old(nodes.Values)) && Extends(old(nodes), nodes)
      ensures FileTree.Mkdir(old(t), at, path) == Outcome(status, t)
    {
      hide Rep, FileTree.NewFile;
      if path.None? {
        return NOT_ENOUGH_ARGS;
      }
      status := NewFile(from, at, path.value, 'D');
    }

    method Creat(from: Node, ghost at: Location, path: Option<string>) returns (status: Status)
      requires Rep() && at in nodes && from == nodes[at]
      modifies this`t, this`nodes, nodes.Values
      ensures Rep() && fresh(nodes.Values - old(nodes.Values)) && Extends(old(nodes), nodes)
      ensures FileTree.Creat(old(t), at, path) == Outcome(status, t)
    {
      hide Rep, FileTree.NewFile;
      if path.None? {
        return NOT_ENOUGH_ARGS;
      }
      status := NewFile(from, at, path.value, 'F');
    }

    // ----- Removing

    // A node after its neighbour `at` has been unlinked.
    static ghost predicate Unlinked(t: Tree, nodes: map<Location, Node>, at: Location, l: Location)
      requires l in nodes && l in t && Parent(at) in t
      reads nodes[l]
    {
      var kids := t[Parent(at)].kids;
      var after := Ref(nodes, NextSibling(t, at));
      nodes[l].Holds(NameOf(l), t[l].kind,
                     if l == Parent(at) && kids != [] && at == Child(l, kids[0]) then after
                     else Ref(nodes, KidAt(t, l, 0)),
                     if NextSibling(t, l) == Some(at) then after else Ref(nodes, NextSibling(t, l)),
                     Ref(nodes, Some(Parent(l))))
    }

    // The links of what is left lead to what is left.
    static lemma LinksLeft(t: Tree, at: Location, l: Location)
      requires WellFormed(t) && at in t && at != [] && l in t && !(at <= l)
      ensures var r := Remove(t, at);
        && (KidAt(r, l, 0).Some? ==> KidAt(r, l, 0).value in r)
        && (NextSibling(r, l).Some? ==> NextSibling(r, l).value in r)
        && l in r && Parent(l) in r
    {
      RemoveKeeps(t, at);
      LinksStay(Remove(t, at), l);
    }

    static lemma UnlinkedRep(t: Tree, nodes: map<Location, Node>, nodes': map<Location, Node>, at: Location,
                             l: Location)
      requires WellFormed(t) && nodes.Keys == t.Keys && at in t && at != [] && l in t && !(at <= l) && Parent(at) in t
      requires nodes' == map m | m in nodes && !(at <= m) :: nodes[m]
      requires Unlinked(t, nodes, at, l)
      ensures l in nodes' && l in Remove(t, at) && NodeRep(Remove(t, at), nodes', l)
    {
      RemoveFirstKid(t, at, l);
      RemoveSibling(t, at, l);
      LinksLeft(t, at, l);
      var r := Remove(t, at);
      assert r.Keys == nodes'.Keys;
      hide WellFormed, KidAt, NextSibling, Remove;
    }

    // A list of siblings is unlinked at the node before `at`, which has it as its next.
    static lemma BeforeOnly(t: Tree, at: Location, k: nat, l: Location)
      requires WellFormed(t) && at in t && at != [] && l in t
      requires Parent(at) in t && k + 1 < |t[Parent(at)].kids| && at == Child(Parent(at), t[Parent(at)].kids[k + 1])
      ensures NextSibling(t, l) == Some(at) <==> l == Child(Parent(at), t[Parent(at)].kids[k])
    {
      var p := Parent(at);
      var kids := t[p].kids;
      assert NodeOk(t, l) && NodeOk(t, p);
      SiblingOfKid(t, p, k);
      if NextSibling(t, l) == Some(at) {
        var q := Parent(l);
        var i := IndexOf(t[q].kids, l[|l| - 1]);
        ChildParent(q, t[q].kids[i + 1]);
        ChildParent(p, kids[k + 1]);
        assert q == p && kids[i + 1] == kids[k + 1];
        assert l == Child(p, kids[i]);
      }
    }

    // A next sibling has the same parent, and is not the first child.
    static lemma SiblingNotFirst(t: Tree, l: Location)
      requires WellFormed(t) && l in t && NextSibling(t, l).Some?
      ensures var c := NextSibling(t, l).value;
        c != [] && Parent(c) in t && t[Parent(c)].kids != [] && c[|c| - 1] != t[Parent(c)].kids[0]
    {
      var q := Parent(l);
      assert NodeOk(t, l) && NodeOk(t, q);
      ChildParent(q, t[q].kids[IndexOf(t[q].kids, l[|l| - 1]) + 1]);
    }

    static lemma FirstHasNoneBefore(t: Tree, at: Location, l: Location)
      requires WellFormed(t) && at in t && at != [] && l in t
      requires Parent(at) in t && t[Parent(at)].kids != [] && at == Child(Parent(at), t[Parent(at)].kids[0])
      ensures NextSibling(t, l) != Some(at)
    {
      ChildParent(Parent(at), t[Parent(at)].kids[0]);
      if NextSibling(t, l).Some? {
        SiblingNotFirst(t, l);
      }
    }

    // The sibling before filePtr, which is not the first child.
    method PreviousSibling(filePtr: Node, ghost at: Location) returns (curChild: Node, ghost k: nat)
      requires Rep() && at in nodes && at != [] && filePtr == nodes[at]
      requires Parent(at) in nodes && t[Parent(at)].kids != [] && at != Child(Parent(at), t[Parent(at)].kids[0])
      ensures var kids := t[Parent(at)].kids;
        && k + 1 < |kids| && at == Child(Parent(at), kids[k + 1])
        && Child(Parent(at), kids[k]) in nodes && curChild == nodes[Child(Parent(at), kids[k])]
    {
      ghost var p, kids := Parent(at), t[Parent(at)].kids;
      ghost var m := IndexOf(kids, at[|at| - 1]);
      assert NodeOk(t, at) && at == Child(p, at[|at| - 1]);
      ParentNode(at);
      KidNode(p, 0);
      hide Rep, KidAt;
      curChild := filePtr.parent.child;
      k := 0;
      while curChild.sibling != filePtr
        invariant k < m && m < |kids| && Child(p, kids[k]) in nodes && curChild == nodes[Child(p, kids[k])]
        decreases m - k
      {
        KidNode(p, k);
        KidNode(p, k + 1);
        curChild := curChild.sibling;
        k := k + 1;
      }
      KidNode(p, k);
      KidNode(p, k + 1);
      RepTree();
      RepInjective(at, Child(p, kids[k + 1]));
    }

    lemma RepInjective(l: Location, m: Location)
      requires Rep() && l in nodes && m in nodes
      ensures nodes[l] == nodes[m] ==> l == m
    {
    }

    // Takes filePtr out of its list of siblings.
    method Unlink(filePtr: Node, ghost at: Location)
      requires Rep() && at in nodes && at != [] && filePtr == nodes[at]
      modifies nodes.Values
      ensures Parent(at) in t
      ensures forall l {:trigger Unlinked(t, nodes, at, l)} :: l in nodes && !(at <= l) ==> Unlinked(t, nodes, at, l)
    {
      ghost var p, kids := Parent(at), t[Parent(at)].kids;
      assert NodeOk(t, at) && at == Child(p, at[|at| - 1]);
      ParentNode(at);
      KidNode(p, 0);
      RepInjective(at, Child(p, kids[0]));
      assert NodeRep(t, nodes, at) && NodeRep(t, nodes, p);
      if filePtr == filePtr.parent.child {
        filePtr.parent.child := filePtr.sibling;
        forall l | l in nodes && !(at <= l) ensures Unlinked(t, nodes, at, l) {
          assert old(NodeRep(t, nodes, l));
          FirstHasNoneBefore(t, at, l);
        }
      } else {
        ghost var k;
        var curChild;
        curChild, k := PreviousSibling(filePtr, at);
        curChild.sibling := filePtr.sibling;
        forall l | l in nodes && !(at <= l) ensures Unlinked(t, nodes, at, l) {
          assert old(NodeRep(t, nodes, l));
          BeforeOnly(t, at, k, l);
        }
      }
    }

    // rmHelper. The node and everything below it are no longer part of the tree.
    method RmHelper(filePtr: Node, ghost at: Location)
      requires Rep() && at in nodes && at != [] && filePtr == nodes[at]
      modifies this`t, this`nodes, nodes.Values
      ensures Rep() && t == Remove(old(t), at)
      ensures nodes == map l | l in old(nodes) && !(at <= l) :: old(nodes)[l]
    {
      hide NodeRep, Unlinked, Remove, WellFormed, KidAt, NextSibling;
      ghost var kept := map l | l in nodes && !(at <= l) :: nodes[l];
      RepTree();
      RemoveKeeps(t, at);
      RemoveKeys(t, at);
      Unlink(filePtr, at);
      forall l | l in kept ensures NodeRep(Remove(t, at), kept, l) {
        UnlinkedRep(t, nodes, kept, at, l);
      }
      nodes := kept;
      t := Remove(t, at);
      assert Injective(nodes);
    }

    static lemma RemoveKeys(t: Tree, at: Location)
      requires WellFormed(t) && at != []
      ensures forall l :: l in Remove(t, at) <==> l in t && !(at <= l)
      ensures [] in Remove(t, at)
    {
    }

    // rmdir. A root without children can be named by other paths than "/". The program then
    // follows a null pointer, and the method ends with `crashed`.
    method Rmdir(path: Option<string>) returns (status: Status, crashed: bool)
      requires Rep() && CwdRep()
      modifies this`t, this`nodes, nodes.Values
      ensures Rep() && nodes.Values <= old(nodes.Values)
      ensures crashed <==>
        && path.Some? && path.value != "/" && old(t)[[]].kids == []
        && Navigate(old(t), cwdAt, path.value, false) == Found([])
      ensures if crashed then t == old(t) else FileTree.Rmdir(old(t), cwdAt, path) == Outcome(status, t)
      ensures SafeCommand(old(System(t, cwdAt)), RmdirCommand(path)) ==> CwdRep() && !crashed
    {
      crashed := false;
      hide Rep, Navigate, Remove;
      if path.None? {
        return NOT_ENOUGH_ARGS, false;
      }
      if path.value == "/" {
        return DIR_NOT_EMPTY, false;
      }
      ghost var at;
      var nwd;
      nwd, status, at := NavigateToPath(cwd, cwdAt, path.value, false);
      if status != SUCCESS {
        return;
      }
      RepTree();
      KidPointer(at);
      if nwd.child != null {
        return DIR_NOT_EMPTY, false;
      } else if nwd.kind != 'D' {
        return WRONG_TYPE, false;
      }
      ParentNode(at);
      RepInjective(at, Parent(at));
      if nwd.parent == nwd {
        return SUCCESS, true;
      }
      RmHelper(nwd, at);
    }

    method Rm(path: Option<string>) returns (status: Status)
      requires Rep() && CwdRep()
      modifies this`t, this`nodes, nodes.Values
      ensures Rep() && nodes.Values <= old(nodes.Values)
      ensures FileTree.Rm(old(t), cwdAt, path) == Outcome(status, t)
      ensures SafeCommand(old(System(t, cwdAt)), RmCommand(path)) ==> CwdRep()
    {
      hide Rep, Navigate, Remove;
      if path.None? {
        return NOT_ENOUGH_ARGS;
      }
      ghost var at;
      var nwd;
      nwd, status, at := NavigateToPath(cwd, cwdAt, path.value, false);
      if status != SUCCESS {
        return;
      }
      RepTree();
      KidPointer(at);
      if nwd.kind != 'F' {
        return WRONG_TYPE;
      }
      RmHelper(nwd, at);
    }

    lemma KidPointer(at: Location)
      requires Rep() && at in nodes
      ensures at in t && nodes[at].kind == t[at].kind && (nodes[at].child == null <==> t[at].kids == [])
      ensures nodes[at].name == NameOf(at) && t[[]].kind == 'D'
    {
      assert NodeRep(t, nodes, at);
      FirstKid(at);
    }

    method Cd(path: Option<string>) returns (status: Status)
      requires Rep() && CwdRep()
      modifies this`cwd, this`cwdAt
      ensures Rep() && CwdRep()
      ensures match CdTarget(t, old(cwdAt), path)
        case Found(at) => status == SUCCESS && cwdAt == at
        case Failed(s) => status == s && cwdAt == old(cwdAt)
    {
      hide Rep, Navigate;
      RepTree();
      var nwd;
      ghost var at;
      if path.None? {
        nwd := JumpToRoot(cwd, cwdAt);
        at := [];
      } else {
        nwd, status, at := NavigateToPath(cwd, cwdAt, path.value, false);
        if status != SUCCESS {
          return;
        }
      }
      SetCwd(nwd, at);
      status := SUCCESS;
    }

    method SetCwd(nwd: Node, ghost at: Location)
      requires Rep() && at in nodes && nwd == nodes[at]
      modifies this`cwd, this`cwdAt
      ensures Rep() && CwdRep() && cwdAt == at
    {
      hide Represents;
      cwd, cwdAt := nwd, at;
    }

    // ----- Printing, saving and reloading

    method AbsoluteWd(from: Node, ghost at: Location) returns (pathString: string)
      requires Rep() && at in nodes && from == nodes[at]
      ensures pathString == PathOf(at)
    {
      var node := from;
      ghost var l := at;
      pathString := "";
      ParentNode(l);
      RepInjective(l, Parent(l));
      if node.parent == node {
        pathString := "/";
      }
      while node.parent != node
        invariant l in nodes && node == nodes[l] && (node.parent == node <==> l == [])
        invariant if at == [] then l == [] && pathString == "/" else Joined(l) + pathString == Joined(at)
        decreases |l|
      {
        KidPointer(l);
        ParentNode(l);
        assert Joined(l) + pathString == Joined(Parent(l)) + ("/" + node.name + pathString);
        pathString := "/" + node.name + pathString;
        node := node.parent;
        l := Parent(l);
        ParentNode(l);
        RepInjective(l, Parent(l));
      }
      assert Joined([]) + pathString == pathString;
    }

    // saveRecursive: a line for the node, then its children in order.
    method SaveRecursive(nodePtr: Node, ghost at: Location) returns (text: string)
      requires Rep() && at in nodes && nodePtr == nodes[at]
      ensures WellFormed(t) && at in t
      ensures text == FileTreeSave.RenderAll(FileTreeSave.SaveLines(t, at))
      decreases FileTreeSave.Subtree(t, at).Keys
    {
      hide Rep, FileTreeSave.SaveLines, FileTreeSave.RenderAll, FileTreeSave.Render, KidAt;
      RepTree();
      KidPointer(at);
      KidsStart(at);
      var curNode := nodePtr.child;
      var pathString := AbsoluteWd(nodePtr, at);
      text := [nodePtr.kind] + " " + pathString + "\n";
      ghost var k := 0;
      ghost var line := FileTreeSave.Line(t[at].kind, PathOf(at));
      SavedOne(line);
      ghost var done := [line];
      while curNode != null
        invariant k <= |t[at].kids| && curNode == Ref(nodes, KidAt(t, at, k))
        invariant text == FileTreeSave.RenderAll(done)
        invariant done + FileTreeSave.SaveKids(t, at, k) == FileTreeSave.SaveLines(t, at)
        decreases |t[at].kids| - k
      {
        KidEnd(at, k);
        KidNode(at, k);
        ghost var c := Child(at, t[at].kids[k]);
        FileTreeSave.ChildSubtree(t, at, t[at].kids[k]);
        var part := SaveRecursive(curNode, c);
        SavedMore(done, FileTreeSave.SaveLines(t, c));
        text := text + part;
        done := done + FileTreeSave.SaveLines(t, c);
        curNode := curNode.sibling;
        k := k + 1;
      }
      KidEnd(at, k);
      assert FileTreeSave.SaveKids(t, at, k) == [] && done + [] == done;
    }

    lemma KidsStart(at: Location)
      requires Rep() && at in nodes && at in t && WellFormed(t)
      ensures nodes[at].child == Ref(nodes, KidAt(t, at, 0))
      ensures FileTreeSave.SaveLines(t, at) ==
              [FileTreeSave.Line(t[at].kind, PathOf(at))] + FileTreeSave.SaveKids(t, at, 0)
    {
      assert NodeRep(t, nodes, at);
    }

    // The walk over the children ends just when there are no more.
    lemma KidEnd(at: Location, k: nat)
      requires Rep() && at in nodes && at in t && k <= |t[at].kids|
      ensures Ref(nodes, KidAt(t, at, k)) == null <==> k == |t[at].kids|
    {
      if k < |t[at].kids| {
        KidNode(at, k);
      }
    }

    static lemma SavedOne(line: FileTreeSave.Line)
      ensures FileTreeSave.RenderAll([line]) == [line.kind] + " " + line.path + "\n"
    {
      assert FileTreeSave.RenderAll([line][1..]) == "";
    }

    static lemma SavedMore(a: seq<FileTreeSave.Line>, b: seq<FileTreeSave.Line>)
      ensures FileTreeSave.RenderAll(a + b) == FileTreeSave.RenderAll(a) + FileTreeSave.RenderAll(b)
    {
      if a == [] {
        assert a + b == b;
      } else {
        assert (a + b)[0] == a[0] && (a + b)[1..] == a[1..] + b;
        SavedMore(a[1..], b);
      }
    }

    method Save() returns (text: string)
      requires Rep()
      ensures WellFormed(t) && text == FileTreeSave.Save(t)
    {
      RepTree();
      text := SaveRecursive(root, []);
    }

    // reload, from the root. Where the program goes through a null pointer, because a line has
    // not the tokens it reads, the method ends with `crashed`.
    method Reload(text: string) returns (status: Option<Status>, crashed: bool)
      requires Rep()
      modifies this`t, this`nodes, nodes.Values
      ensures Rep() && Extends(old(nodes), nodes)
      ensures crashed <==> ShortAfterGood(Lines(text))
      ensures match FileTree.Reload(old(t), text)
        case Loaded(tree) => status == None && t == tree
        case Malformed(tree) => status == Some(WRONG_TYPE) && t == tree
        case Crashed(tree) => crashed && t == tree
    {
      CrashesIff(t, Lines(text));
      hide Rep, FileTree.NewFile, Tokens;
      ghost var all := FileTree.Reload(t, text);
      var rest := text;
      RepTree();
      while rest != ""
        invariant Rep() && [] in nodes && root == nodes[[]]
        invariant Extends(old(nodes), nodes) && fresh(nodes.Values - old(nodes.Values))
        invariant all == LoadLines(t, Lines(rest))
        decreases |rest|
      {
        var line;
        line, rest := NextLine(rest);
        var token, more := NextToken(line, BLANKS);
        var pathname, _ := NextToken(more, BLANKS);
        LoadStep(t, line, token, pathname, more, Lines(rest));
        if token.None? || (token.value in {"D", "F"} && pathname.None?) {
          return None, true;
        } else if token.value == "D" {
          var _ := Mkdir(root, [], pathname);
        } else if token.value == "F" {
          var _ := Creat(root, [], pathname);
        } else {
          return Some(WRONG_TYPE), false;
        }
        RepTree();
      }
      return None, false;
    }
  }

  // What the first line does, in terms of its first two tokens.
  lemma LoadStep(t: Tree, line: string, token: Option<string>, pathname: Option<string>, more: string,
                 rest: seq<string>)
    requires Tokens(line, BLANKS) == ListOf(token) + Tokens(more, BLANKS)
    requires if pathname.Some? then Tokens(more, BLANKS) != [] && Tokens(more, BLANKS)[0] == pathname.value
             else Tokens(more, BLANKS) == []
    requires token.None? ==> Tokens(line, BLANKS) == []
    ensures LoadLines(t, [line] + rest) ==
      if token.None? then Crashed(t)
      else if token.value !in {"D", "F"} then Malformed(t)
      else if pathname.None? then Crashed(t)
      else LoadLines(FileTree.NewFile(t, [], pathname.value, token.value[0]).tree, rest)
  {
    assert ([line] + rest)[1..] == rest;
  }

  // Saving one file system and reloading the file into a fresh one copies the tree.
  method CopyThroughFile(fs: FileSystem) returns (copy: FileSystem)
    requires fs.Rep() && FileTreeSave.Savable(fs.t)
    ensures fresh(copy) && copy.Rep() && copy.t == fs.t
  {
    hide FileSystem.Rep, FileTree.Reload, FileTreeSave.Save;
    var text := fs.Save();
    FileTreeSave.SaveReload(fs.t);
    copy := new FileSystem();
    var _, _ := copy.Reload(text);
  }
}
