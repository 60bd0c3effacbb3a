/**
 What each command does, said without its code: which node a path means, when a command
 succeeds, and which nodes it adds or takes away.
 */
module FileTreeCommands {
  import opened Seqs
  import opened Strings
  import opened FileTree

  // ----- Which node a path means

  // One step of a path, whether or not there is such a node.
  function Towards(at: Location, token: string): Location {
    if token == "." then at else if token == ".." then Parent(at) else Child(at, token)
  }

  function Destination(at: Location, tokens: seq<string>): Location
    decreases |tokens|
  {
    if tokens == [] then at else Destination(Towards(at, tokens[0]), tokens[1..])
  }

  // There is a node at every step of the way.
  ghost predicate Leads(t: Tree, at: Location, tokens: seq<string>) {
    forall k :: 0 <= k <= |tokens| ==> Destination(at, tokens[..k]) in t
  }

  function Start(cwd: Location, path: string): Location {
    if path != "" && path[0] == '/' then [] else cwd
  }

  function Front(tokens: seq<string>): seq<string>
    requires tokens != []
  {
    tokens[..|tokens| - 1]
  }

  lemma LeadsNext(t: Tree, at: Location, tokens: seq<string>)
    requires at in t && tokens != []
    ensures Leads(t, at, tokens) <==> Leads(t, Towards(at, tokens[0]), tokens[1..])
  {
    var next, rest := Towards(at, tokens[0]), tokens[1..];
    forall k | 0 <= k <= |rest| ensures Destination(at, tokens[..k + 1]) == Destination(next, rest[..k]) {
      assert tokens[..k + 1][0] == tokens[0] && tokens[..k + 1][1..] == rest[..k];
    }
    if Leads(t, at, tokens) {
      forall k | 0 <= k <= |rest| ensures Destination(next, rest[..k]) in t {
        assert Destination(at, tokens[..k + 1]) in t;
      }
    }
    if Leads(t, next, rest) {
      forall k | 0 <= k <= |tokens| ensures Destination(at, tokens[..k]) in t {
        if k == 0 {
          assert tokens[..0] == [];
        } else {
          assert Destination(next, rest[..k - 1]) in t;
        }
      }
    }
  }

  // A named child is there exactly if its location is.
  lemma KidIsThere(t: Tree, at: Location, name: string)
    requires WellFormed(t) && at in t
    ensures name in t[at].kids <==> Child(at, name) in t
  {
    ChildParent(at, name);
    assert NodeOk(t, at);
    if Child(at, name) in t {
      assert NodeOk(t, Child(at, name));
    }
  }

  lemma LeadsNowhere(t: Tree, at: Location)
    requires at in t
    ensures Leads(t, at, []) && Destination(at, []) == at
  {
    var none: seq<string> := [];
    assert forall k :: 0 <= k <= |none| ==> none[..k] == none;
  }

  lemma LeadsToFirst(t: Tree, at: Location, tokens: seq<string>)
    requires Leads(t, at, tokens)
    ensures at in t
  {
    assert tokens[..0] == [];
    assert Destination(at, tokens[..0]) in t;
  }

  // A path resolves to its destination exactly if there is a node at every step of the way.
  lemma {:induction false} WalkExact(t: Tree, at: Location, tokens: seq<string>)
    requires WellFormed(t) && at in t
    ensures Walk(t, at, tokens, false) ==
      if Leads(t, at, tokens) then Found(Destination(at, tokens)) else Failed(NOT_FOUND)
    decreases |tokens|
  {
    hide Leads;
    if tokens == [] {
      LeadsNowhere(t, at);
    } else {
      LeadsNext(t, at, tokens);
      assert NodeOk(t, at);
      KidIsThere(t, at, tokens[0]);
      var next := Towards(at, tokens[0]);
      if next in t {
        WalkExact(t, next, tokens[1..]);
      } else {
        if Leads(t, next, tokens[1..]) {
          LeadsToFirst(t, next, tokens[1..]);
        }
      }
    }
  }

  // A path for a new node: there must be a node at every step but the last.
  lemma {:induction false} WalkNewExact(t: Tree, at: Location, tokens: seq<string>)
    requires WellFormed(t) && at in t
    ensures Walk(t, at, tokens, true) ==
      if Leads(t, at, tokens) then Failed(ALREADY_EXISTS)
      else if tokens != [] && Leads(t, at, Front(tokens)) then Found(Destination(at, Front(tokens)))
      else Failed(NOT_FOUND)
    decreases |tokens|
  {
    hide Leads;
    if tokens == [] {
      LeadsNowhere(t, at);
    } else {
      LeadsNext(t, at, tokens);
      assert NodeOk(t, at);
      KidIsThere(t, at, tokens[0]);
      var next := Towards(at, tokens[0]);
      if |tokens| == 1 {
        assert tokens[1..] == [] && Front(tokens) == [];
        LeadsNowhere(t, at);
      } else {
        LeadsNext(t, at, Front(tokens));
        assert Front(tokens)[1..] == Front(tokens[1..]);
      }
      if next in t {
        WalkNewExact(t, next, tokens[1..]);
      } else {
        NoWayOn(t, next, tokens[1..]);
        if |tokens| > 1 {
          NoWayOn(t, next, Front(tokens[1..]));
        }
      }
    }
  }

  lemma NoWayOn(t: Tree, at: Location, tokens: seq<string>)
    requires at !in t
    ensures !Leads(t, at, tokens)
  {
    if Leads(t, at, tokens) {
      LeadsToFirst(t, at, tokens);
    }
  }

  // There is a node that the path names, and which one.
  ghost predicate Names(t: Tree, cwd: Location, path: string) {
    Leads(t, Start(cwd, path), Tokens(path, SLASH))
  }

  function Named(cwd: Location, path: string): Location {
    Destination(Start(cwd, path), Tokens(path, SLASH))
  }

  lemma NavigateExact(t: Tree, cwd: Location, path: string)
    requires WellFormed(t) && cwd in t
    ensures Navigate(t, cwd, path, false) == if Names(t, cwd, path) then Found(Named(cwd, path)) else Failed(NOT_FOUND)
    ensures Names(t, cwd, path) ==> Named(cwd, path) in t
  {
    hide Leads;
    WellFormedRoot(t);
    WalkExact(t, Start(cwd, path), Tokens(path, SLASH));
    NavigateStays(t, cwd, path, false);
  }

  // ----- Relative paths

  lemma RelativeTokens(rest: Location)
    requires GoodNames(rest) && rest != []
    ensures Joined(rest) != "" && !Absolute(Joined(rest)[1..])
    ensures Tokens(Joined(rest)[1..], SLASH) == rest
  {
    hide Tokens, Joined;
    JoinedShape(rest);
    JoinedShape(rest[1..]);
    assert GoodName(rest[0]);
    var path := Joined(rest)[1..];
    assert path == rest[0] + Joined(rest[1..]);
    TokenFirst(rest[0], Joined(rest[1..]), SLASH);
    TokensOfJoined(rest[1..]);
    assert rest == [rest[0]] + rest[1..];
  }

  // From a directory above a node, what is left of its printed path leads to it.
  lemma RelativePath(t: Tree, cwd: Location, at: Location)
    requires WellFormed(t) && cwd in t && at in t && cwd <= at && cwd != at
    ensures Joined(at[|cwd|..]) != ""
    ensures Navigate(t, cwd, Joined(at[|cwd|..])[1..], false) == Found(at)
  {
    hide Walk, WellFormed, Joined, Tokens, GoodName;
    WayThere(t, at);
    RelativeTokens(at[|cwd|..]);
    WalkDown(t, at, |cwd|, false);
    assert at[..|cwd|] == cwd;
  }

  lemma DotPaths(t: Tree, cwd: Location)
    requires WellFormed(t) && cwd in t
    ensures Navigate(t, cwd, ".", false) == Navigate(t, cwd, "", false) == Found(cwd)
    ensures Navigate(t, cwd, "..", false) == Found(Parent(cwd))
    ensures Navigate(t, cwd, "/", false) == Found([])
  {
    TokenFirst(".", "", SLASH);
    TokenFirst("..", "", SLASH);
    DelimiterFirst('/', "", SLASH);
    assert "." + "" == "." && ".." + "" == ".." && ['/'] + "" == "/" && Tokens("", SLASH) == [];
    assert ["."][1..] == [] && [".."][1..] == [];
    assert Walk(t, Parent(cwd), [], false) == Found(Parent(cwd));
  }

  // ----- The text of a printed path

  function Slashes(s: string): nat {
    if s == "" then 0 else Slashes(s[..|s| - 1]) + if s[|s| - 1] == '/' then 1 else 0
  }

  lemma {:induction false} SlashesConcat(a: string, b: string)
    ensures Slashes(a + b) == Slashes(a) + Slashes(b)
  {
    if b == "" {
      assert a + b == a;
    } else {
      assert (a + b)[..|a + b| - 1] == a + b[..|b| - 1];
      SlashesConcat(a, b[..|b| - 1]);
    }
  }

  lemma {:induction false} NoSlashes(s: string)
    requires forall i :: 0 <= i < |s| ==> s[i] != '/'
    ensures Slashes(s) == 0
  {
    if s != "" {
      NoSlashes(s[..|s| - 1]);
    }
  }

  // It begins with a slash, has as many as names and ends in none: one before each name.
  lemma {:induction false} PathText(at: Location)
    requires GoodNames(at) && at != []
    ensures var s := PathOf(at); s != "" && s[0] == '/' && s[|s| - 1] != '/' && Slashes(s) == |at|
    decreases |at|
  {
    var p, name := Parent(at), at[|at| - 1];
    JoinedShape(at);
    assert GoodName(name) && GoodNames(p);
    NoSlashes(name);
    SlashesConcat(Joined(p) + "/", name);
    SlashesConcat(Joined(p), "/");
    assert Slashes("/") == 1 by { assert "/"[..0] == ""; }
    if p != [] {
      PathText(p);
    }
  }

  // ----- mkdir and creat

  // One new node without children, the last child of its parent.
  ghost predicate Created(t: Tree, r: Tree, at: Location, kind: char) {
    && at != [] && at !in t && Parent(at) in t
    && r.Keys == t.Keys + {at} && r[at] == Entry(kind, [])
    && r[Parent(at)] == Entry(t[Parent(at)].kind, t[Parent(at)].kids + [at[|at| - 1]])
    && forall l :: l in t && l != Parent(at) ==> r[l] == t[l]
  }

  lemma {:induction false} DestinationLast(at: Location, tokens: seq<string>)
    requires tokens != []
    ensures Destination(at, tokens) == Towards(Destination(at, Front(tokens)), tokens[|tokens| - 1])
    decreases |tokens|
  {
    if |tokens| > 1 {
      assert Front(tokens)[1..] == Front(tokens[1..]);
      DestinationLast(Towards(at, tokens[0]), tokens[1..]);
    } else {
      assert tokens[1..] == [];
    }
  }

  lemma NewFileExact(t: Tree, cwd: Location, path: string, kind: char)
    requires WellFormed(t) && cwd in t
    ensures var r, tokens := NewFile(t, cwd, path, kind), Tokens(path, SLASH);
      if Names(t, cwd, path) then r == Outcome(ALREADY_EXISTS, t)
      else if tokens != [] && Leads(t, Start(cwd, path), Front(tokens)) then
        r.status == SUCCESS && Created(t, r.tree, Named(cwd, path), kind)
      else r == Outcome(NOT_FOUND, t)
  {
    hide Leads;
    var start, tokens := Start(cwd, path), Tokens(path, SLASH);
    WellFormedRoot(t);
    WalkNewExact(t, start, tokens);
    NavigateStays(t, cwd, path, true);
    if !Names(t, cwd, path) && tokens != [] && Leads(t, start, Front(tokens)) {
      var at, name := Destination(start, Front(tokens)), LastToken(path);
      DestinationLast(start, tokens);
      ChildParent(at, name);
      InsertKeeps(t, at, name, kind);
    }
  }

  // Both, with every answer: a directory is made by mkdir, a file by creat.
  lemma MkdirExact(t: Tree, cwd: Location, path: Option<string>)
    requires WellFormed(t) && cwd in t
    ensures var r := Mkdir(t, cwd, path);
      match path
      case None => r == Outcome(NOT_ENOUGH_ARGS, t)
      case Some(p) =>
        if Names(t, cwd, p) then r == Outcome(ALREADY_EXISTS, t)
        else if Tokens(p, SLASH) != [] && Leads(t, Start(cwd, p), Front(Tokens(p, SLASH))) then
          r.status == SUCCESS && Created(t, r.tree, Named(cwd, p), 'D')
        else r == Outcome(NOT_FOUND, t)
  {
    if path.Some? {
      NewFileExact(t, cwd, path.value, 'D');
    }
  }

  lemma CreatExact(t: Tree, cwd: Location, path: Option<string>)
    requires WellFormed(t) && cwd in t
    ensures var r := Creat(t, cwd, path);
      match path
      case None => r == Outcome(NOT_ENOUGH_ARGS, t)
      case Some(p) =>
        if Names(t, cwd, p) then r == Outcome(ALREADY_EXISTS, t)
        else if Tokens(p, SLASH) != [] && Leads(t, Start(cwd, p), Front(Tokens(p, SLASH))) then
          r.status == SUCCESS && Created(t, r.tree, Named(cwd, p), 'F')
        else r == Outcome(NOT_FOUND, t)
  {
    if path.Some? {
      NewFileExact(t, cwd, path.value, 'F');
    }
  }

  // A plain name goes into the working directory.
  lemma PlainName(t: Tree, cwd: Location, name: string)
    requires WellFormed(t) && cwd in t && GoodName(name) && name !in t[cwd].kids
    ensures Mkdir(t, cwd, Some(name)).status == Creat(t, cwd, Some(name)).status == SUCCESS
    ensures Created(t, Mkdir(t, cwd, Some(name)).tree, cwd + [name], 'D')
    ensures Created(t, Creat(t, cwd, Some(name)).tree, cwd + [name], 'F')
  {
    TokenFirst(name, "", SLASH);
    assert name + "" == name && Tokens("", SLASH) == [];
    assert Tokens(name, SLASH) == [name] && [name][1..] == [] && !Absolute(name);
    InsertKeeps(t, cwd, name, 'D');
    ChildParent(cwd, name);
  }

  // ----- rmdir and rm

  // The node and everything below it are gone, its parent has lost this one child, and nothing
  // else has changed.
  ghost predicate Taken(t: Tree, r: Tree, at: Location) {
    && at in t && at != [] && Parent(at) in t
    && (forall l :: l in r <==> l in t && !(at <= l))
    && (forall l :: l in r && l != Parent(at) ==> r[l] == t[l])
    && var kids, k := t[Parent(at)].kids, IndexOf(t[Parent(at)].kids, at[|at| - 1]);
       k < |kids| && Parent(at) in r && r[Parent(at)] == Entry(t[Parent(at)].kind, kids[..k] + kids[k + 1..])
  }

  lemma RemoveTakes(t: Tree, at: Location)
    requires WellFormed(t) && at in t && at != []
    ensures Taken(t, Remove(t, at), at)
  {
    assert NodeOk(t, at);
    WithoutIndex(t[Parent(at)].kids, at[|at| - 1]);
    hide Without, IndexOf;
  }

  // Below a node without children there is none.
  lemma NobodyBelow(t: Tree, at: Location)
    requires WellFormed(t) && at in t && t[at].kids == []
    ensures forall l :: l in t && at <= l ==> l == at
  {
    forall l | l in t && at <= l ensures l == at {
      assert l[..|at|] == at;
      WayThere(t, l);
    }
  }

  // A directory is removed only if it has no children, and then just this one node goes.
  // (The root is not refused under another name than "/", where the program goes wrong.)
  lemma RmdirExact(t: Tree, cwd: Location, path: Option<string>)
    requires WellFormed(t) && cwd in t
    ensures var r := Rmdir(t, cwd, path);
      match path
      case None => r == Outcome(NOT_ENOUGH_ARGS, t)
      case Some(p) =>
        var at := Named(cwd, p);
        if p == "/" then r == Outcome(DIR_NOT_EMPTY, t)
        else if !Names(t, cwd, p) then r == Outcome(NOT_FOUND, t)
        else if at in t && t[at].kids != [] then r == Outcome(DIR_NOT_EMPTY, t)
        else if at in t && t[at].kind != 'D' then r == Outcome(WRONG_TYPE, t)
        else r.status == SUCCESS && (at != [] ==> Taken(t, r.tree, at) && r.tree.Keys == t.Keys - {at})
  {
    hide Leads, Destination;
    if path.Some? {
      NavigateExact(t, cwd, path.value);
      var at := Named(cwd, path.value);
      if at in t && at != [] && t[at].kids == [] {
        RemoveTakes(t, at);
        NobodyBelow(t, at);
      }
    }
  }

  // A file is removed, with everything below it; a directory is not.
  lemma RmExact(t: Tree, cwd: Location, path: Option<string>)
    requires WellFormed(t) && cwd in t
    ensures var r := Rm(t, cwd, path);
      match path
      case None => r == Outcome(NOT_ENOUGH_ARGS, t)
      case Some(p) =>
        var at := Named(cwd, p);
        if !Names(t, cwd, p) then r == Outcome(NOT_FOUND, t)
        else if at in t && t[at].kind != 'F' then r == Outcome(WRONG_TYPE, t)
        else r.status == SUCCESS && Taken(t, r.tree, at)
  {
    hide Leads, Destination;
    if path.Some? {
      NavigateExact(t, cwd, path.value);
      var at := Named(cwd, path.value);
      if at in t && at != [] {
        RemoveTakes(t, at);
      }
    }
  }

  // ----- cd

  // To the root without an argument, to the node named if there is one, and else nowhere.
  lemma CdExact(s: System, path: Option<string>)
    requires Live(s)
    ensures Execute(s, CdCommand(path)) ==
      match path
      case None => s.(cwd := [])
      case Some(p) => if Names(s.tree, s.cwd, p) then s.(cwd := Named(s.cwd, p)) else s
    ensures path.Some? ==>
      CdTarget(s.tree, s.cwd, path) ==
      if Names(s.tree, s.cwd, path.value) then Found(Named(s.cwd, path.value)) else Failed(NOT_FOUND)
  {
    if path.Some? {
      NavigateExact(s.tree, s.cwd, path.value);
    }
  }

  // ----- reload

  // The nodes of good lines, created one after the other from the root.
  function CreateAll(t: Tree, lines: seq<string>): Tree
    requires forall i :: 0 <= i < |lines| ==> Good(lines[i])
    decreases |lines|
  {
    if lines == [] then t
    else
      var tokens := Tokens(lines[0], BLANKS);
      assert Good(lines[0]);
      CreateAll(NewFile(t, [], tokens[1], tokens[0][0]).tree, lines[1..])
  }

  // Everything up to the first line that is not good is taken in, and that line says how it ends.
  lemma {:induction false} ReloadExact(t: Tree, lines: seq<string>, n: nat)
    requires n <= |lines| && forall i :: 0 <= i < n ==> Good(lines[i])
    requires n < |lines| ==> !Good(lines[n])
    ensures LoadLines(t, lines) ==
      if n == |lines| then Loaded(CreateAll(t, lines[..n]))
      else if Short(lines[n]) then Crashed(CreateAll(t, lines[..n]))
      else Malformed(CreateAll(t, lines[..n]))
    decreases |lines|
  {
    hide NewFile, Tokens;
    if n > 0 {
      var tokens := Tokens(lines[0], BLANKS);
      assert lines[..n][0] == lines[0] && lines[..n][1..] == lines[1..][..n - 1];
      ReloadExact(NewFile(t, [], tokens[1], tokens[0][0]).tree, lines[1..], n - 1);
    } else {
      assert lines[..0] == [];
    }
  }
}
