/**
 The file-system tree of Lab1/commands.c.

 A node is named by its location: the names on the way from the root. A tree is the map
 from its locations to their entries, an entry being the type letter and the names of the
 children in sibling order. Equality of trees is equality of names, types and order.
 */
module FileTree {
  import opened Seqs
  import opened Strings

  type Location = seq<string>

  datatype Entry = Entry(kind: char, kids: seq<string>)

  type Tree = map<Location, Entry>

  datatype Status = SUCCESS | NOT_FOUND | ALREADY_EXISTS | DIR_NOT_EMPTY | WRONG_TYPE | NOT_ENOUGH_ARGS

  const SLASH := {'/'}

  function Child(at: Location, name: string): Location {
    at + [name]
  }

  // The root is its own parent.
  function Parent(at: Location): Location {
    if at == [] then [] else at[..|at| - 1]
  }

  predicate GoodName(name: string) {
    IsToken(name, SLASH) && name != "." && name != ".."
  }

  // Siblings have different names that a path can name, children exist, and a node that is
  // not the root is a child of its parent.
  ghost predicate NodeOk(t: Tree, at: Location)
    requires at in t
  {
    && Distinct(t[at].kids)
    && (forall x :: x in t[at].kids ==> GoodName(x) && Child(at, x) in t)
    && (at != [] ==> Parent(at) in t && at[|at| - 1] in t[Parent(at)].kids)
  }

  // A rooted tree.
  ghost predicate WellFormed(t: Tree) {
    && [] in t && t[[]].kind == 'D'
    && forall at {:trigger NodeOk(t, at)} :: at in t ==> NodeOk(t, at)
  }

  lemma WellFormedRoot(t: Tree)
    requires WellFormed(t)
    ensures [] in t
  {
  }

  const ROOT_ONLY: Tree := map[[] := Entry('D', [])]

  // ----- Paths

  datatype Navigation = Found(at: Location) | Failed(status: Status)

  // The walk of navigateToPath over the remaining tokens.
  function Walk(t: Tree, at: Location, tokens: seq<string>, newNode: bool): (r: Navigation)
    ensures r.Failed? ==> r.status == NOT_FOUND || (newNode && r.status == ALREADY_EXISTS)
    decreases |tokens|
  {
    if tokens == [] then
      if newNode then Failed(ALREADY_EXISTS) else Found(at)
    else if tokens[0] == "." then Walk(t, at, tokens[1..], newNode)
    else if tokens[0] == ".." then Walk(t, Parent(at), tokens[1..], newNode)
    else if at in t && tokens[0] in t[at].kids then Walk(t, Child(at, tokens[0]), tokens[1..], newNode)
    else if newNode && |tokens| == 1 then Found(at)
    else Failed(NOT_FOUND)
  }

  predicate Absolute(path: string) {
    path != "" && path[0] == '/'
  }

  function Navigate(t: Tree, cwd: Location, path: string, newNode: bool): Navigation {
    Walk(t, if Absolute(path) then [] else cwd, Tokens(path, SLASH), newNode)
  }

  lemma {:induction false} WalkStays(t: Tree, at: Location, tokens: seq<string>, newNode: bool)
    requires WellFormed(t) && at in t
    decreases |tokens|
    ensures var r := Walk(t, at, tokens, newNode);
      && (r.Found? ==> r.at in t)
      && (r.Found? && newNode ==> tokens != [] && tokens[|tokens| - 1] !in t[r.at].kids
                                  && tokens[|tokens| - 1] != "." && tokens[|tokens| - 1] != "..")
  {
    assert NodeOk(t, at);
    if tokens != [] {
      if tokens[0] == "." {
        WalkStays(t, at, tokens[1..], newNode);
      } else if tokens[0] == ".." {
        WalkStays(t, Parent(at), tokens[1..], newNode);
      } else if tokens[0] in t[at].kids {
        WalkStays(t, Child(at, tokens[0]), tokens[1..], newNode);
      }
    }
  }

  // The path absoluteWd prints.
  function Joined(at: Location): string {
    if at == [] then "" else Joined(Parent(at)) + "/" + at[|at| - 1]
  }

  function PathOf(at: Location): string {
    if at == [] then "/" else Joined(at)
  }

  predicate GoodNames(at: Location) {
    forall i :: 0 <= i < |at| ==> GoodName(at[i])
  }

  lemma {:induction false} JoinedShape(at: Location)
    ensures at == [] ==> Joined(at) == ""
    ensures at != [] ==> Joined(at) != "" && Joined(at)[0] == '/'
    ensures at != [] ==> Joined(at) == "/" + at[0] + Joined(at[1..])
  {
    if |at| > 1 {
      JoinedShape(Parent(at));
      assert Parent(at)[1..] == Parent(at[1..]);
      assert Joined(Parent(at)) == "/" + at[0] + Joined(Parent(at[1..]));
      assert Joined(at[1..]) == Joined(Parent(at[1..])) + "/" + at[|at| - 1];
      calc {
        Joined(at);
        "/" + at[0] + Joined(Parent(at[1..])) + "/" + at[|at| - 1];
        "/" + at[0] + (Joined(Parent(at[1..])) + "/" + at[|at| - 1]);
      }
    } else if |at| == 1 {
      assert Parent(at) == [] && at[1..] == [];
      assert Joined(at) == "" + "/" + at[0];
    }
  }

  lemma {:induction false} TokensOfJoined(at: Location)
    requires GoodNames(at)
    ensures Tokens(Joined(at), SLASH) == at
  {
    hide Joined;
    JoinedShape(at);
    if at != [] {
      var rest := Joined(at[1..]);
      TokensOfJoined(at[1..]);
      JoinedShape(at[1..]);
      hide Tokens;
      assert GoodName(at[0]);
      assert "/" + at[0] + rest == ['/'] + (at[0] + rest);
      DelimiterFirst('/', at[0] + rest, SLASH);
      TokenFirst(at[0], rest, SLASH);
    }
  }

  // Tokenizing a printed path gives back the names on the way.
  lemma TokensOfPath(at: Location)
    requires GoodNames(at)
    ensures Tokens(PathOf(at), SLASH) == at && Absolute(PathOf(at))
  {
    TokensOfJoined(at);
    JoinedShape(at);
  }

  // Every node of a well-formed tree has good names on its way, all of them in the tree.
  lemma {:induction false} WayThere(t: Tree, at: Location)
    requires WellFormed(t) && at in t
    ensures GoodNames(at)
    ensures forall k :: 0 <= k <= |at| ==> at[..k] in t
    ensures forall k :: 0 <= k < |at| ==> at[k] in t[at[..k]].kids
  {
    if at == [] {
      assert forall k :: 0 <= k <= |at| ==> at[..k] == [];
    } else {
      var p := Parent(at);
      assert NodeOk(t, at) && NodeOk(t, p);
      WayThere(t, p);
      forall k | 0 <= k <= |at| ensures at[..k] in t && (k < |at| ==> at[k] in t[at[..k]].kids && GoodName(at[k])) {
        if k == |at| {
          assert at[..k] == at;
        } else {
          assert at[..k] == p[..k];
          if k < |p| { assert at[k] == p[k]; } else { assert at[..k] == p; }
        }
      }
    }
  }

  lemma {:induction false} WalkDown(t: Tree, at: Location, k: nat, newNode: bool)
    requires WellFormed(t) && at in t && k <= |at|
    ensures Walk(t, at[..k], at[k..], newNode) == if newNode then Failed(ALREADY_EXISTS) else Found(at)
    decreases |at| - k
  {
    WayThere(t, at);
    if k < |at| {
      assert at[k..][0] == at[k] && at[k..][1..] == at[k + 1..];
      assert Child(at[..k], at[k]) == at[..k + 1];
      WalkDown(t, at, k + 1, newNode);
    } else {
      assert at[..k] == at;
    }
  }

  // The printed path of a node leads to it, from any working directory.
  lemma PathLeadsBack(t: Tree, cwd: Location, at: Location)
    requires WellFormed(t) && at in t
    ensures Navigate(t, cwd, PathOf(at), false) == Found(at)
    ensures Navigate(t, cwd, PathOf(at), true) == Failed(ALREADY_EXISTS)
  {
    WayThere(t, at);
    TokensOfPath(at);
    WalkDown(t, at, 0, false);
    WalkDown(t, at, 0, true);
    assert at[..0] == [] && at[0..] == at;
  }

  // And it is the only path printed for it: different nodes have different paths.
  lemma PathsDiffer(t: Tree, at: Location, other: Location)
    requires WellFormed(t) && at in t && other in t && PathOf(at) == PathOf(other)
    ensures at == other
  {
    PathLeadsBack(t, [], at);
    PathLeadsBack(t, [], other);
  }

  // ----- Creating and removing nodes

  function Insert(t: Tree, at: Location, name: string, kind: char): Tree
    requires at in t
  {
    t[at := Entry(t[at].kind, t[at].kids + [name])][Child(at, name) := Entry(kind, [])]
  }

  // The sibling list with the first node of this name unlinked.
  function Without(kids: seq<string>, name: string): seq<string> {
    if kids == [] then []
    else if kids[0] == name then kids[1..]
    else [kids[0]] + Without(kids[1..], name)
  }

  // Unlinking a node takes everything below it out of the tree. (For the root the program
  // goes wrong; no tree is left.)
  ghost function Remove(t: Tree, at: Location): Tree {
    map l | l in t && !(at <= l) ::
      if at != [] && l == Parent(at) then Entry(t[l].kind, Without(t[l].kids, at[|at| - 1])) else t[l]
  }

  lemma {:induction false} WithoutFacts(kids: seq<string>, name: string)
    requires Distinct(kids)
    ensures Distinct(Without(kids, name))
    ensures forall x :: x in Without(kids, name) <==> x in kids && x != name
  {
    if kids != [] {
      WithoutFacts(kids[1..], name);
      assert kids == [kids[0]] + kids[1..];
      assert kids[0] !in kids[1..];
      var rest := Without(kids[1..], name);
      assert kids[0] !in rest;
      assert Distinct([kids[0]] + rest);
    }
  }

  lemma {:induction false} WithoutLast(kids: seq<string>, name: string)
    requires name !in kids
    ensures Without(kids + [name], name) == kids
  {
    if kids != [] {
      assert (kids + [name])[1..] == kids[1..] + [name];
      WithoutLast(kids[1..], name);
    }
  }

  function IndexOf(s: seq<string>, x: string): (k: nat)
    ensures k <= |s|
    ensures forall j :: 0 <= j < k ==> s[j] != x
    ensures k < |s| ==> s[k] == x
  {
    if s == [] || s[0] == x then 0
    else
      var k := IndexOf(s[1..], x);
      assert forall j :: 0 < j < k + 1 ==> s[j] == s[1..][j - 1];
      k + 1
  }

  lemma {:induction false} WithoutIndex(kids: seq<string>, name: string)
    requires name in kids
    ensures var k := IndexOf(kids, name); k < |kids| && Without(kids, name) == kids[..k] + kids[k + 1..]
  {
    if kids[0] != name {
      WithoutIndex(kids[1..], name);
      var k := IndexOf(kids[1..], name);
      assert [kids[0]] + (kids[1..][..k] + kids[1..][k + 1..]) == kids[..k + 1] + kids[k + 2..];
    }
  }

  lemma ChildParent(at: Location, x: string)
    ensures Child(at, x) != [] && Parent(Child(at, x)) == at && Child(at, x)[|at|] == x
  {
  }

  lemma InsertKeeps(t: Tree, at: Location, name: string, kind: char)
    requires WellFormed(t) && at in t && GoodName(name) && name !in t[at].kids
    ensures Child(at, name) !in t
    ensures WellFormed(Insert(t, at, name, kind))
  {
    var c := Child(at, name);
    ChildParent(at, name);
    assert c in t ==> NodeOk(t, c);
    var r := Insert(t, at, name, kind);
    assert NodeOk(t, at);
    forall l | l in r ensures NodeOk(r, l) {
      if l == c {
      } else {
        assert NodeOk(t, l);
        assert forall x :: x in r[l].kids ==> x in t[l].kids || (l == at && x == name);
      }
    }
  }

  lemma RemoveKeeps(t: Tree, at: Location)
    requires WellFormed(t) && at in t && at != []
    ensures WellFormed(Remove(t, at))
  {
    var r := Remove(t, at);
    var p, name := Parent(at), at[|at| - 1];
    forall l | l in r ensures NodeOk(r, l) {
      assert NodeOk(t, l);
      if l == p { WithoutFacts(t[l].kids, name); }
      forall x | x in r[l].kids ensures Child(l, x) in r {
        ChildParent(l, x);
        if at <= Child(l, x) { PrefixOfChild(at, l, x); }
      }
      if l != [] {
        var q := Parent(l);
        assert !(at <= q);
        if q == p {
          WithoutFacts(t[q].kids, name) by { assert NodeOk(t, q); }
          assert l == Child(q, l[|l| - 1]) && at == Child(p, name);
        }
      }
    }
  }

  lemma PrefixOfChild(at: Location, l: Location, x: string)
    requires at <= Child(l, x)
    ensures at <= l || at == Child(l, x)
  {
    if |at| <= |l| {
      assert at == Child(l, x)[..|at|] == l[..|at|];
    }
  }

  // Whatever is above a node is there.
  lemma Above(t: Tree, at: Location, l: Location)
    requires WellFormed(t) && l in t && at <= l
    ensures at in t
  {
    WayThere(t, l);
    assert at == l[..|at|];
  }

  lemma RemoveInserted(t: Tree, at: Location, name: string, kind: char)
    requires WellFormed(t) && at in t && GoodName(name) && name !in t[at].kids
    ensures Remove(Insert(t, at, name, kind), Child(at, name)) == t
  {
    var c := Child(at, name);
    ChildParent(at, name);
    InsertKeeps(t, at, name, kind);
    WithoutLast(t[at].kids, name);
    var r := Remove(Insert(t, at, name, kind), c);
    forall l ensures l in r <==> l in t {
      if c <= l && l in t { Above(t, c, l); }
    }
  }

  // ----- Commands

  datatype Outcome = Outcome(status: Status, tree: Tree)

  function LastToken(path: string): string
    requires Tokens(path, SLASH) != []
  {
    var tokens := Tokens(path, SLASH);
    tokens[|tokens| - 1]
  }

  function NewFile(t: Tree, cwd: Location, path: string, kind: char): Outcome {
    match Navigate(t, cwd, path, true)
    case Failed(status) => Outcome(status, t)
    case Found(at) =>
      if at in t && Tokens(path, SLASH) != [] then Outcome(SUCCESS, Insert(t, at, LastToken(path), kind))
      else Outcome(NOT_FOUND, t)
  }

  function Mkdir(t: Tree, cwd: Location, path: Option<string>): Outcome {
    if path.None? then Outcome(NOT_ENOUGH_ARGS, t) else NewFile(t, cwd, path.value, 'D')
  }

  function Creat(t: Tree, cwd: Location, path: Option<string>): Outcome {
    if path.None? then Outcome(NOT_ENOUGH_ARGS, t) else NewFile(t, cwd, path.value, 'F')
  }

  // What rmdir is about to remove, or why it will not.
  function RmdirTarget(t: Tree, cwd: Location, path: Option<string>): Navigation {
    if path.None? then Failed(NOT_ENOUGH_ARGS)
    else if path.value == "/" then Failed(DIR_NOT_EMPTY)
    else
      match Navigate(t, cwd, path.value, false)
      case Failed(status) => Failed(status)
      case Found(at) =>
        if at in t && t[at].kids != [] then Failed(DIR_NOT_EMPTY)
        else if at in t && t[at].kind != 'D' then Failed(WRONG_TYPE)
        else Found(at)
  }

  function RmTarget(t: Tree, cwd: Location, path: Option<string>): Navigation {
    if path.None? then Failed(NOT_ENOUGH_ARGS)
    else
      match Navigate(t, cwd, path.value, false)
      case Failed(status) => Failed(status)
      case Found(at) => if at in t && t[at].kind != 'F' then Failed(WRONG_TYPE) else Found(at)
  }

  ghost function RemoveTarget(t: Tree, target: Navigation): Outcome {
    match target
    case Failed(status) => Outcome(status, t)
    case Found(at) => Outcome(SUCCESS, Remove(t, at))
  }

  ghost function Rmdir(t: Tree, cwd: Location, path: Option<string>): Outcome {
    RemoveTarget(t, RmdirTarget(t, cwd, path))
  }

  ghost function Rm(t: Tree, cwd: Location, path: Option<string>): Outcome {
    RemoveTarget(t, RmTarget(t, cwd, path))
  }

  // The new working directory. Any node will do, a file as well.
  function CdTarget(t: Tree, cwd: Location, path: Option<string>): Navigation {
    if path.None? then Found([]) else Navigate(t, cwd, path.value, false)
  }

  // ----- Reloading a file

  const BLANKS := {' ', '\n'}

  // What has become of the tree, the lines up to the end or the first bad one taken in.
  datatype Reloaded =
    | Loaded(tree: Tree)
    | Malformed(tree: Tree)  // WRONG_TYPE
    | Crashed(tree: Tree)    // a token the program reads is not there: a null pointer

  function LoadLines(t: Tree, lines: seq<string>): Reloaded
    decreases |lines|
  {
    if lines == [] then Loaded(t)
    else
      var tokens := Tokens(lines[0], BLANKS);
      if tokens == [] then Crashed(t)
      else if tokens[0] == "D" || tokens[0] == "F" then
        if |tokens| == 1 then Crashed(t)
        else LoadLines(NewFile(t, [], tokens[1], tokens[0][0]).tree, lines[1..])
      else Malformed(t)
  }

  // Reads a whole file into the tree, every path being resolved from the root.
  function Reload(t: Tree, text: string): Reloaded {
    LoadLines(t, Lines(text))
  }

  // A type letter and a path.
  predicate Good(line: string) {
    |Tokens(line, BLANKS)| >= 2 && Tokens(line, BLANKS)[0] in {"D", "F"}
  }

  // A blank line, or a type letter alone.
  predicate Short(line: string) {
    var tokens := Tokens(line, BLANKS);
    tokens == [] || (|tokens| == 1 && tokens[0] in {"D", "F"})
  }

  // Nothing but good lines before a short one.
  ghost predicate ShortAfterGood(lines: seq<string>) {
    exists i :: 0 <= i < |lines| && Short(lines[i]) && forall j :: 0 <= j < i ==> Good(lines[j])
  }

  // Whatever the tree, the lines alone say whether reload goes through a null pointer.
  lemma {:induction false} CrashesIff(t: Tree, lines: seq<string>)
    ensures LoadLines(t, lines).Crashed? <==> ShortAfterGood(lines)
    decreases |lines|
  {
    hide NewFile, Tokens;
    if lines != [] {
      var rest := lines[1..];
      if Good(lines[0]) {
        var tokens := Tokens(lines[0], BLANKS);
        CrashesIff(NewFile(t, [], tokens[1], tokens[0][0]).tree, rest);
        if ShortAfterGood(rest) {
          var i :| 0 <= i < |rest| && Short(rest[i]) && forall j :: 0 <= j < i ==> Good(rest[j]);
          assert Short(lines[i + 1]) && forall j :: 0 <= j < i + 1 ==> Good(lines[j]);
        }
        if ShortAfterGood(lines) {
          var i :| 0 <= i < |lines| && Short(lines[i]) && forall j :: 0 <= j < i ==> Good(lines[j]);
          assert Short(rest[i - 1]) && forall j :: 0 <= j < i - 1 ==> Good(rest[j]);
        }
      } else {
        assert Short(lines[0]) ==> ShortAfterGood(lines);
      }
    }
  }

  // A file of one empty line is enough.
  lemma EmptyLineCrashes(t: Tree)
    ensures Reload(t, "\n") == Crashed(t)
  {
    LineFirst("", "");
    assert "" + "\n" + "" == "\n";
    DelimiterFirst('\n', "", BLANKS);
    assert ['\n'] + "" == "\n" && Tokens("", BLANKS) == [];
  }

  // ----- What the commands keep

  lemma NavigateStays(t: Tree, cwd: Location, path: string, newNode: bool)
    requires WellFormed(t) && cwd in t
    ensures var r := Navigate(t, cwd, path, newNode);
      && (r.Found? ==> r.at in t)
      && (r.Found? && newNode ==>
            Tokens(path, SLASH) != [] && GoodName(LastToken(path)) && LastToken(path) !in t[r.at].kids)
  {
    var tokens := Tokens(path, SLASH);
    WalkStays(t, if Absolute(path) then [] else cwd, tokens, newNode);
  }

  // In an empty file system `rmdir .` comes to remove the root: only the path "/" is refused.
  lemma EmptyRootRemoved()
    ensures RmdirTarget(ROOT_ONLY, [], Some(".")) == Found([])
  {
    TokenFirst(".", "", SLASH);
    assert "." + "" == "." && Tokens("", SLASH) == [] && ["."][1..] == [];
    assert Walk(ROOT_ONLY, [], [], false) == Found([]);
  }

  lemma NewFileKeeps(t: Tree, cwd: Location, path: string, kind: char)
    requires WellFormed(t) && cwd in t
    ensures WellFormed(NewFile(t, cwd, path, kind).tree) && t.Keys <= NewFile(t, cwd, path, kind).tree.Keys
  {
    var r := Navigate(t, cwd, path, true);
    NavigateStays(t, cwd, path, true);
    if r.Found? {
      InsertKeeps(t, r.at, LastToken(path), kind);
    }
  }

  // Reloading any file keeps a rooted tree, and all the nodes it had.
  lemma {:induction false} LoadKeeps(t: Tree, lines: seq<string>)
    requires WellFormed(t)
    ensures WellFormed(LoadLines(t, lines).tree) && t.Keys <= LoadLines(t, lines).tree.Keys
    decreases |lines|
  {
    hide NewFile, Tokens;
    if lines != [] && Good(lines[0]) {
      var tokens := Tokens(lines[0], BLANKS);
      NewFileKeeps(t, [], tokens[1], tokens[0][0]);
      LoadKeeps(NewFile(t, [], tokens[1], tokens[0][0]).tree, lines[1..]);
    }
  }

  // The state of the program, and its commands that change it. A file to reload is given by
  // its text; there is none if no name is given or it cannot be opened.
  datatype System = System(tree: Tree, cwd: Location)

  datatype Command =
    | MkdirCommand(path: Option<string>)
    | CreatCommand(path: Option<string>)
    | RmdirCommand(path: Option<string>)
    | RmCommand(path: Option<string>)
    | CdCommand(path: Option<string>)
    | ReloadCommand(file: Option<string>)

  // When the program goes through a null pointer, no tree is left.
  function AfterReload(s: System, r: Reloaded): System {
    s.(tree := if r.Crashed? then map[] else r.tree)
  }

  ghost function Execute(s: System, c: Command): System {
    match c
    case MkdirCommand(path) => s.(tree := Mkdir(s.tree, s.cwd, path).tree)
    case CreatCommand(path) => s.(tree := Creat(s.tree, s.cwd, path).tree)
    case RmdirCommand(path) => s.(tree := Rmdir(s.tree, s.cwd, path).tree)
    case RmCommand(path) => s.(tree := Rm(s.tree, s.cwd, path).tree)
    case CdCommand(path) =>
      var target := CdTarget(s.tree, s.cwd, path);
      if target.Found? then s.(cwd := target.at) else s
    case ReloadCommand(file) => if file.Some? then AfterReload(s, Reload(s.tree, file.value)) else s
  }

  // What the command removes, if it removes anything.
  function Removes(s: System, c: Command): Navigation {
    match c
    case RmdirCommand(path) => RmdirTarget(s.tree, s.cwd, path)
    case RmCommand(path) => RmTarget(s.tree, s.cwd, path)
    case _ => Failed(SUCCESS)
  }

  // The command does not remove the root, the working directory or a node above it, nor reload
  // a file with a short line behind good ones. The program does not check this.
  ghost predicate SafeCommand(s: System, c: Command) {
    && (Removes(s, c).Found? ==> !(Removes(s, c).at <= s.cwd))
    && (c.ReloadCommand? && c.file.Some? ==> !ShortAfterGood(Lines(c.file.value)))
  }

  // The tree is a tree, and the working directory is in it.
  ghost predicate Live(s: System) {
    WellFormed(s.tree) && s.cwd in s.tree
  }

  lemma RemovedIsNode(s: System, c: Command)
    requires Live(s) && Removes(s, c).Found?
    ensures Removes(s, c).at in s.tree
    ensures Execute(s, c) == s.(tree := Remove(s.tree, Removes(s, c).at))
  {
    NavigateStays(s.tree, s.cwd, c.path.value, false);
  }

  // One command keeps the system alive exactly when it is safe.
  lemma ExecuteKeeps(s: System, c: Command)
    requires Live(s)
    ensures Live(Execute(s, c)) <==> SafeCommand(s, c)
  {
    if Removes(s, c).Found? {
      var at := Removes(s, c).at;
      RemovedIsNode(s, c);
      if SafeCommand(s, c) {
        assert at != [];
        RemoveKeeps(s.tree, at);
      }
    } else {
      match c
      case MkdirCommand(path) => if path.Some? { NewFileKeeps(s.tree, s.cwd, path.value, 'D'); }
      case CreatCommand(path) => if path.Some? { NewFileKeeps(s.tree, s.cwd, path.value, 'F'); }
      case CdCommand(path) => if path.Some? { NavigateStays(s.tree, s.cwd, path.value, false); }
      case ReloadCommand(file) =>
        if file.Some? {
          CrashesIff(s.tree, Lines(file.value));
          LoadKeeps(s.tree, Lines(file.value));
        }
      case _ =>
    }
  }

  ghost function Run(s: System, commands: seq<Command>): System
    decreases |commands|
  {
    if commands == [] then s else Run(Execute(s, commands[0]), commands[1..])
  }

  ghost predicate SafeRun(s: System, commands: seq<Command>)
    decreases |commands|
  {
    commands == [] || (SafeCommand(s, commands[0]) && SafeRun(Execute(s, commands[0]), commands[1..]))
  }

  const START := System(ROOT_ONLY, [])

  lemma {:induction false} RunLive(s: System, commands: seq<Command>)
    requires Live(s) && SafeRun(s, commands)
    ensures Live(Run(s, commands))
    decreases |commands|
  {
    if commands != [] {
      ExecuteKeeps(s, commands[0]);
      RunLive(Execute(s, commands[0]), commands[1..]);
    }
  }

  lemma StartLive()
    ensures Live(START)
  {
    assert NodeOk(ROOT_ONLY, []);
  }

  // ----- Creating and removing undo each other

  // Where a new node was to go, it is found once it is there.
  lemma {:induction false} WalkFindsNew(t: Tree, at: Location, start: Location, tokens: seq<string>, kind: char)
    requires WellFormed(t) && start in t && at in t
    requires Walk(t, start, tokens, true) == Found(at) && tokens != []
    requires var name := tokens[|tokens| - 1]; GoodName(name) && name !in t[at].kids
    ensures var name := tokens[|tokens| - 1];
      Walk(Insert(t, at, name, kind), start, tokens, false) == Found(Child(at, name))
    decreases |tokens|
  {
    var name := tokens[|tokens| - 1];
    var r := Insert(t, at, name, kind);
    assert NodeOk(t, start);
    assert forall x :: x in t[start].kids ==> x in r[start].kids;
    if tokens[0] == "." {
      WalkFindsNew(t, at, start, tokens[1..], kind);
    } else if tokens[0] == ".." {
      WalkFindsNew(t, at, Parent(start), tokens[1..], kind);
    } else if tokens[0] in t[start].kids {
      WalkStays(t, Child(start, tokens[0]), tokens[1..], true);
      WalkFindsNew(t, at, Child(start, tokens[0]), tokens[1..], kind);
    } else {
      assert tokens == [name] && tokens[1..] == [];
    }
  }

  lemma NewFileFound(t: Tree, cwd: Location, path: string, kind: char)
    requires WellFormed(t) && cwd in t && NewFile(t, cwd, path, kind).status == SUCCESS
    ensures Navigate(t, cwd, path, true).Found?
    ensures var at := Navigate(t, cwd, path, true).at;
      && at in t && GoodName(LastToken(path)) && LastToken(path) !in t[at].kids
      && NewFile(t, cwd, path, kind).tree == Insert(t, at, LastToken(path), kind)
      && Navigate(Insert(t, at, LastToken(path), kind), cwd, path, false) == Found(Child(at, LastToken(path)))
  {
    NavigateStays(t, cwd, path, true);
    WalkFindsNew(t, Navigate(t, cwd, path, true).at, if Absolute(path) then [] else cwd, Tokens(path, SLASH), kind);
  }

  // rmdir after a successful mkdir of the same path succeeds, and restores the tree exactly.
  lemma RmdirUndoesMkdir(t: Tree, cwd: Location, path: string)
    requires WellFormed(t) && cwd in t
    requires Mkdir(t, cwd, Some(path)).status == SUCCESS
    ensures Rmdir(Mkdir(t, cwd, Some(path)).tree, cwd, Some(path)) == Outcome(SUCCESS, t)
  {
    NewFileFound(t, cwd, path, 'D');
    var at := Navigate(t, cwd, path, true).at;
    RemoveInserted(t, at, LastToken(path), 'D');
    ChildParent(at, LastToken(path));
    assert Tokens("/", SLASH) == [];
  }

  lemma RmUndoesCreat(t: Tree, cwd: Location, path: string)
    requires WellFormed(t) && cwd in t
    requires Creat(t, cwd, Some(path)).status == SUCCESS
    ensures Rm(Creat(t, cwd, Some(path)).tree, cwd, Some(path)) == Outcome(SUCCESS, t)
  {
    NewFileFound(t, cwd, path, 'F');
    RemoveInserted(t, Navigate(t, cwd, path, true).at, LastToken(path), 'F');
  }

  // The check the program omits matters: making a directory, entering it and removing it
  // from inside leaves a working directory that is no longer there.
  const WITH_A: Tree := map[[] := Entry('D', ["a"]), ["a"] := Entry('D', [])]

  const FATAL: seq<Command> := [MkdirCommand(Some("a")), CdCommand(Some("a")), RmdirCommand(Some("../a"))]

  lemma FatalTokens()
    ensures Tokens("a", SLASH) == ["a"] && Tokens("../a", SLASH) == ["..", "a"]
  {
    TokenFirst("a", "", SLASH);
    assert "a" + "" == "a";
    TokenFirst("..", "/a", SLASH);
    DelimiterFirst('/', "a", SLASH);
    assert ".." + "/a" == "../a" && ['/'] + "a" == "/a";
  }

  lemma FatalSteps()
    ensures Execute(START, FATAL[0]) == System(WITH_A, [])
    ensures Execute(System(WITH_A, []), FATAL[1]) == System(WITH_A, ["a"])
    ensures Removes(System(WITH_A, ["a"]), FATAL[2]) == Found(["a"])
  {
    FatalTokens();
    hide Tokens;
    assert Child([], "a") == ["a"] && Parent(["a"]) == [] && ["a"][1..] == [] && ["..", "a"][1..] == ["a"];
    assert Walk(WITH_A, ["a"], [], false) == Found(["a"]);
    assert Walk(WITH_A, [], ["a"], false) == Found(["a"]);
  }

  lemma UnsafeRemovalBreaks()
    ensures Live(START) && !SafeRun(START, FATAL) && !Live(Run(START, FATAL))
  {
    hide Live, Execute, SafeCommand, Removes;
    StartLive();
    FatalSteps();
    var made, inside := System(WITH_A, []), System(WITH_A, ["a"]);
    ExecuteKeeps(START, FATAL[0]);
    FatalIsUnsafe();
    ExecuteKeeps(made, FATAL[1]);
    ExecuteKeeps(inside, FATAL[2]);
    assert FATAL[1..][0] == FATAL[1] && FATAL[1..][1..] == [FATAL[2]] && [FATAL[2]][1..] == [];
    assert Run(START, FATAL) == Run(made, FATAL[1..]) == Run(inside, [FATAL[2]]) == Execute(inside, FATAL[2]);
    assert SafeRun(START, FATAL) ==> SafeRun(made, FATAL[1..]) ==> SafeRun(inside, [FATAL[2]]);
  }

  lemma FatalIsUnsafe()
    ensures SafeCommand(START, FATAL[0]) && SafeCommand(System(WITH_A, []), FATAL[1])
    ensures !SafeCommand(System(WITH_A, ["a"]), FATAL[2])
  {
    FatalSteps();
    hide RmdirTarget;
  }
}
