/** Saving the tree to a file and reloading it (Lab1/commands.c, save and reload). */
module FileTreeSave {
  import opened Strings
  import opened FileTree

  // ----- Lines

  // One line of the saved file.
  datatype Line = Line(kind: char, path: string)

  function Render(line: Line): string {
    [line.kind] + " " + line.path + "\n"
  }

  function RenderAll(lines: seq<Line>): string {
    if lines == [] then "" else Render(lines[0]) + RenderAll(lines[1..])
  }

  // What can be written and read back: no blank or newline in it.
  predicate Printable(line: Line) {
    line.kind !in BLANKS && IsToken(line.path, BLANKS)
  }

  lemma RenderTokens(line: Line)
    requires Printable(line)
    ensures Tokens(Render(line), BLANKS) == [[line.kind], line.path]
  {
    var rest := line.path + "\n";
    assert Render(line) == [line.kind] + (" " + rest);
    TokenFirst([line.kind], " " + rest, BLANKS);
    assert " " + rest == [' '] + rest;
    DelimiterFirst(' ', rest, BLANKS);
    TokenFirst(line.path, "\n", BLANKS);
    assert "\n" == ['\n'] + "";
    DelimiterFirst('\n', "", BLANKS);
    assert Tokens("", BLANKS) == [];
  }

  lemma RenderIsLine(line: Line, rest: string)
    requires Printable(line)
    ensures Lines(Render(line) + rest) == [Render(line)] + Lines(rest)
  {
    var body := [line.kind] + " " + line.path;
    assert forall i :: 0 <= i < |body| ==> body[i] != '\n';
    assert Render(line) + rest == body + "\n" + rest;
    LineFirst(body, rest);
  }

  // ----- Replaying

  // Creating the nodes of some lines, one after the other, every path from the root.
  function Replay(t: Tree, lines: seq<Line>): Tree
    decreases |lines|
  {
    if lines == [] then t else Replay(NewFile(t, [], lines[0].path, lines[0].kind).tree, lines[1..])
  }

  predicate Wellmade(lines: seq<Line>) {
    forall i :: 0 <= i < |lines| ==> Printable(lines[i]) && lines[i].kind in {'D', 'F'}
  }

  // Reading rendered lines is replaying them.
  lemma {:induction false} ReloadIsReplay(t: Tree, lines: seq<Line>)
    requires Wellmade(lines)
    ensures Reload(t, RenderAll(lines)) == Loaded(Replay(t, lines))
    decreases |lines|
  {
    hide NewFile;
    if lines != [] {
      var line, rest := lines[0], lines[1..];
      RenderIsLine(line, RenderAll(rest));
      RenderTokens(line);
      var tokens := Tokens(Render(line), BLANKS);
      assert tokens[0] == "D" || tokens[0] == "F" by {
        assert line.kind == 'D' || line.kind == 'F';
      }
      ReloadIsReplay(NewFile(t, [], line.path, line.kind).tree, rest);
    }
  }

  lemma {:induction false} ReplayAppend(t: Tree, a: seq<Line>, b: seq<Line>)
    ensures Replay(t, a + b) == Replay(Replay(t, a), b)
    decreases |a|
  {
    if a == [] {
      assert a + b == b;
    } else {
      assert (a + b)[0] == a[0] && (a + b)[1..] == a[1..] + b;
      ReplayAppend(NewFile(t, [], a[0].path, a[0].kind).tree, a[1..], b);
    }
  }

  // ----- Saving

  // The part of the tree at and below a node.
  ghost function Subtree(t: Tree, at: Location): Tree {
    map l | l in t && at <= l :: t[l]
  }

  lemma ChildSubtree(t: Tree, at: Location, x: string)
    requires at in t
    ensures Subtree(t, Child(at, x)).Keys < Subtree(t, at).Keys
  {
    forall l | l in Subtree(t, Child(at, x)) ensures l in Subtree(t, at) {
      assert at == l[..|at|];
    }
    assert at in Subtree(t, at);
  }

  // The lines saveRecursive writes for a node: itself, then its children in order.
  ghost function SaveLines(t: Tree, at: Location): seq<Line>
    requires WellFormed(t) && at in t
    decreases Subtree(t, at).Keys, |t[at].kids| + 1
  {
    [Line(t[at].kind, PathOf(at))] + SaveKids(t, at, 0)
  }

  ghost function SaveKids(t: Tree, at: Location, k: nat): seq<Line>
    requires WellFormed(t) && at in t && k <= |t[at].kids|
    decreases Subtree(t, at).Keys, |t[at].kids| - k
  {
    if k == |t[at].kids| then []
    else
      var x := t[at].kids[k];
      assert NodeOk(t, at);
      ChildSubtree(t, at, x);
      SaveLines(t, Child(at, x)) + SaveKids(t, at, k + 1)
  }

  ghost function Save(t: Tree): string
    requires WellFormed(t)
  {
    RenderAll(SaveLines(t, []))
  }

  // Types are D and F, and no name holds a blank or a newline.
  ghost predicate Savable(t: Tree) {
    forall at {:trigger t[at]} :: at in t ==>
      && t[at].kind in {'D', 'F'}
      && forall x :: x in t[at].kids ==> forall i :: 0 <= i < |x| ==> x[i] !in BLANKS
  }

  lemma {:induction false} JoinedPrintable(at: Location)
    requires forall j :: 0 <= j < |at| ==> forall i :: 0 <= i < |at[j]| ==> at[j][i] !in BLANKS
    ensures forall i :: 0 <= i < |Joined(at)| ==> Joined(at)[i] !in BLANKS
  {
    if at != [] {
      JoinedPrintable(Parent(at));
    }
  }

  lemma PathPrintable(t: Tree, at: Location)
    requires WellFormed(t) && Savable(t) && at in t
    ensures Printable(Line(t[at].kind, PathOf(at)))
  {
    WayThere(t, at);
    forall j | 0 <= j < |at| ensures forall i :: 0 <= i < |at[j]| ==> at[j][i] !in BLANKS {
      assert at[j] in t[at[..j]].kids;
    }
    JoinedPrintable(at);
    JoinedShape(at);
  }

  // Every line saved names a node of the tree, with its type.
  ghost predicate Describes(t: Tree, line: Line) {
    exists l :: l in t && line == Line(t[l].kind, PathOf(l))
  }

  lemma {:induction false} SavedDescribe(t: Tree, at: Location)
    requires WellFormed(t) && at in t
    ensures forall line :: line in SaveLines(t, at) ==> Describes(t, line)
    decreases Subtree(t, at).Keys, |t[at].kids| + 1
  {
    SavedKidsDescribe(t, at, 0);
  }

  lemma {:induction false} SavedKidsDescribe(t: Tree, at: Location, k: nat)
    requires WellFormed(t) && at in t && k <= |t[at].kids|
    ensures forall line :: line in SaveKids(t, at, k) ==> Describes(t, line)
    decreases Subtree(t, at).Keys, |t[at].kids| - k
  {
    if k < |t[at].kids| {
      assert NodeOk(t, at);
      ChildSubtree(t, at, t[at].kids[k]);
      SavedDescribe(t, Child(at, t[at].kids[k]));
      SavedKidsDescribe(t, at, k + 1);
    }
  }

  lemma SavedWellmade(t: Tree)
    requires WellFormed(t) && Savable(t)
    ensures Wellmade(SaveLines(t, []))
  {
    SavedDescribe(t, []);
    hide SaveLines;
    var lines := SaveLines(t, []);
    forall i | 0 <= i < |lines| ensures Printable(lines[i]) && lines[i].kind in {'D', 'F'} {
      assert lines[i] in lines;
      var l :| l in t && lines[i] == Line(t[l].kind, PathOf(l));
      PathPrintable(t, l);
    }
  }

  // ----- Replaying a saved subtree into another tree

  lemma {:induction false} WalkToNew(r: Tree, at: Location, k: nat)
    requires WellFormed(r) && GoodNames(at) && k < |at|
    requires Parent(at) in r && at[|at| - 1] !in r[Parent(at)].kids
    ensures Walk(r, at[..k], at[k..], true) == Found(Parent(at))
    decreases |at| - k
  {
    var p := Parent(at);
    WayThere(r, p);
    assert GoodName(at[k]) && at[k..][0] == at[k] && at[k..][1..] == at[k + 1..];
    assert at[..k] == p[..k];
    if k + 1 < |at| {
      assert at[k] == p[k] && Child(at[..k], at[k]) == at[..k + 1];
      WalkToNew(r, at, k + 1);
    } else {
      assert at[..k] == p;
    }
  }

  lemma NewLine(r: Tree, at: Location, kind: char)
    requires WellFormed(r) && GoodNames(at) && at != []
    requires Parent(at) in r && at[|at| - 1] !in r[Parent(at)].kids
    ensures NewFile(r, [], PathOf(at), kind).tree == Insert(r, Parent(at), at[|at| - 1], kind)
  {
    TokensOfPath(at);
    WalkToNew(r, at, 0);
    assert at[..0] == [] && at[0..] == at;
  }

  // The nodes below `at`, from its child number k on.
  ghost function KidsTree(t: Tree, at: Location, k: nat): Tree
    requires at in t && k <= |t[at].kids|
  {
    map l | l in t && at <= l && |l| > |at| && l[|at|] in t[at].kids[k..] :: t[l]
  }

  lemma KidsTreeNext(t: Tree, at: Location, k: nat)
    requires at in t && k < |t[at].kids|
    ensures KidsTree(t, at, k) == Subtree(t, Child(at, t[at].kids[k])) + KidsTree(t, at, k + 1)
  {
    var x := t[at].kids[k];
    var c := Child(at, x);
    assert t[at].kids[k..] == [x] + t[at].kids[k + 1..];
    forall l ensures c <= l <==> at <= l && |l| > |at| && l[|at|] == x {
      if c <= l {
        assert at == l[..|at|] && l[|at|] == c[|at|];
      }
    }
  }

  lemma KidsTreeAll(t: Tree, at: Location)
    requires WellFormed(t) && at in t
    ensures Subtree(t, at) == KidsTree(t, at, 0)[at := t[at]]
  {
    assert t[at].kids[0..] == t[at].kids;
    forall l | l in t && at <= l && l != at ensures |l| > |at| && l[|at|] in t[at].kids {
      WayThere(t, l);
      assert l[..|at|] == at;
    }
  }

  ghost function Grafted(r: Tree, at: Location, t: Tree): Tree
    requires at != [] && Parent(at) in r
  {
    var p := Parent(at);
    r[p := Entry(r[p].kind, r[p].kids + [at[|at| - 1]])] + Subtree(t, at)
  }

  lemma GraftFirst(t: Tree, at: Location, r: Tree)
    requires WellFormed(t) && at in t && at != [] && Parent(at) in r
    ensures Grafted(r, at, t) == Insert(r, Parent(at), at[|at| - 1], t[at].kind)[at := t[at]] + KidsTree(t, at, 0)
  {
    assert at == Child(Parent(at), at[|at| - 1]);
    KidsTreeAll(t, at);
  }

  lemma GraftNext(t: Tree, at: Location, k: nat, r: Tree)
    requires at in t && k < |t[at].kids| && at in r && r[at] == Entry(t[at].kind, t[at].kids[..k])
    ensures var c := Child(at, t[at].kids[k]);
      && c != [] && Parent(c) == at
      && at in Grafted(r, c, t) && Grafted(r, c, t)[at] == Entry(t[at].kind, t[at].kids[..k + 1])
      && Grafted(r, c, t)[at := t[at]] + KidsTree(t, at, k + 1) == r[at := t[at]] + KidsTree(t, at, k)
  {
    var c := Child(at, t[at].kids[k]);
    ChildParent(at, t[at].kids[k]);
    assert t[at].kids[..k] + [t[at].kids[k]] == t[at].kids[..k + 1];
    assert !(c <= at);
    KidsTreeNext(t, at, k);
    assert at !in KidsTree(t, at, k);
  }

  lemma {:induction false} ReplaySubtree(t: Tree, at: Location, r: Tree)
    requires WellFormed(t) && at in t && at != []
    requires WellFormed(r) && Parent(at) in r && at[|at| - 1] !in r[Parent(at)].kids
    ensures Replay(r, SaveLines(t, at)) == Grafted(r, at, t)
    ensures WellFormed(Grafted(r, at, t))
    decreases Subtree(t, at).Keys, |t[at].kids| + 1
  {
    hide WellFormed, Grafted, KidsTree, NewFile, PathOf, SaveKids;
    var p, name := Parent(at), at[|at| - 1];
    WayThere(t, at);
    assert at == Child(p, name) && GoodName(name);
    NewLine(r, at, t[at].kind);
    InsertKeeps(r, p, name, t[at].kind);
    var made := Insert(r, p, name, t[at].kind);
    assert made[at] == Entry(t[at].kind, t[at].kids[..0]);
    ReplayKids(t, at, 0, made);
    GraftFirst(t, at, r);
    var lines := SaveLines(t, at);
    assert lines[0] == Line(t[at].kind, PathOf(at)) && lines[1..] == SaveKids(t, at, 0);
  }

  lemma {:induction false} ReplayKids(t: Tree, at: Location, k: nat, r: Tree)
    requires WellFormed(t) && at in t && k <= |t[at].kids|
    requires WellFormed(r) && at in r && r[at] == Entry(t[at].kind, t[at].kids[..k])
    ensures Replay(r, SaveKids(t, at, k)) == r[at := t[at]] + KidsTree(t, at, k)
    ensures WellFormed(r[at := t[at]] + KidsTree(t, at, k))
    decreases Subtree(t, at).Keys, |t[at].kids| - k
  {
    hide WellFormed, Grafted, SaveLines;
    var kids := t[at].kids;
    if k == |kids| {
      hide Replay;
      ReplayNothing(r);
      assert kids[..k] == kids && kids[k..] == [];
      assert r[at := t[at]] + KidsTree(t, at, k) == r;
    } else {
      hide KidsTree, Replay;
      var c := Child(at, kids[k]);
      KidPlace(t, at, k);
      ReplaySubtree(t, c, r);
      GraftNext(t, at, k, r);
      ReplayKids(t, at, k + 1, Grafted(r, c, t));
      ReplayAppend(r, SaveLines(t, c), SaveKids(t, at, k + 1));
    }
  }

  lemma ReplayNothing(r: Tree)
    ensures Replay(r, []) == r
  {
  }

  lemma KidPlace(t: Tree, at: Location, k: nat)
    requires WellFormed(t) && at in t && k < |t[at].kids|
    ensures var c := Child(at, t[at].kids[k]);
      && c in t && c != [] && Parent(c) == at && c[|c| - 1] == t[at].kids[k]
      && t[at].kids[k] !in t[at].kids[..k]
      && Subtree(t, c).Keys < Subtree(t, at).Keys
  {
    assert NodeOk(t, at);
    ChildSubtree(t, at, t[at].kids[k]);
    ChildParent(at, t[at].kids[k]);
  }

  // ----- Round trips

  lemma RootLine(r: Tree)
    requires WellFormed(r)
    ensures NewFile(r, [], PathOf([]), 'D').tree == r
  {
    PathLeadsBack(r, [], []);
  }

  lemma ReplayRebuilds(t: Tree)
    requires WellFormed(t)
    ensures Replay(ROOT_ONLY, SaveLines(t, [])) == t
  {
    StartLive();
    RootLine(ROOT_ONLY);
    assert t[[]].kids[..0] == [];
    ReplayKids(t, [], 0, ROOT_ONLY);
    KidsTreeAll(t, []);
    assert Subtree(t, []) == t;
    assert ROOT_ONLY[[] := t[[]]] + KidsTree(t, [], 0) == t;
    assert SaveLines(t, [])[0] == Line('D', PathOf([])) && SaveLines(t, [])[1..] == SaveKids(t, [], 0);
  }

  lemma {:induction false} ReplayKnown(t: Tree, lines: seq<Line>)
    requires WellFormed(t) && forall line :: line in lines ==> Describes(t, line)
    ensures Replay(t, lines) == t
    decreases |lines|
  {
    if lines != [] {
      assert lines[0] in lines;
      var l :| l in t && lines[0] == Line(t[l].kind, PathOf(l));
      PathLeadsBack(t, [], l);
      assert forall line :: line in lines[1..] ==> line in lines;
      ReplayKnown(t, lines[1..]);
    }
  }

  // Reloading the saved file into a fresh root rebuilds the tree: names, types and order.
  lemma SaveReload(t: Tree)
    requires WellFormed(t) && Savable(t)
    ensures Reload(ROOT_ONLY, Save(t)) == Loaded(t)
  {
    SavedWellmade(t);
    ReloadIsReplay(ROOT_ONLY, SaveLines(t, []));
    ReplayRebuilds(t);
  }

  // Reloading it into the tree itself changes nothing.
  lemma ReloadUnchanged(t: Tree)
    requires WellFormed(t) && Savable(t)
    ensures Reload(t, Save(t)) == Loaded(t)
  {
    SavedWellmade(t);
    ReloadIsReplay(t, SaveLines(t, []));
    SavedDescribe(t, []);
    ReplayKnown(t, SaveLines(t, []));
  }

  // A root with one directory takes two lines.
  lemma SavedSample()
    ensures WellFormed(WITH_A) && Save(WITH_A) == "D /\nD /a\n"
  {
    assert Child([], "a") == ["a"] && Parent(["a"]) == [];
    assert NodeOk(WITH_A, []) && NodeOk(WITH_A, ["a"]);
    SampleLines();
    assert Render(Line('D', "/")) == "D /\n" && Render(Line('D', "/a")) == "D /a\n";
    var lines := [Line('D', "/"), Line('D', "/a")];
    assert lines[1..] == [Line('D', "/a")] && lines[1..][1..] == [];
    assert RenderAll([]) == "";
    assert RenderAll(lines[1..]) == Render(lines[1]) + RenderAll([]);
    assert RenderAll(lines) == Render(lines[0]) + RenderAll(lines[1..]);
  }

  lemma SampleLines()
    requires WellFormed(WITH_A)
    ensures SaveLines(WITH_A, []) == [Line('D', "/"), Line('D', "/a")]
  {
    var t, a: Location := WITH_A, ["a"];
    assert Parent(a) == [] && Joined([]) == "" && Joined(a) == "" + "/" + "a" == "/a";
    assert t[[]].kids == ["a"] && t[[]].kind == 'D' && t[a] == Entry('D', []);
    assert Child([], "a") == a;
    assert SaveKids(t, a, 0) == [];
    assert SaveLines(t, a) == [Line('D', PathOf(a))] + SaveKids(t, a, 0);
    assert SaveKids(t, [], 1) == [];
    assert SaveKids(t, [], 0) == SaveLines(t, Child([], "a")) + SaveKids(t, [], 1);
    assert SaveLines(t, []) == [Line('D', PathOf([]))] + SaveKids(t, [], 0);
  }

  // ----- Every tree the commands can build

  // The command line is split at blanks, so an argument holds none.
  predicate Clean(s: string) {
    forall i :: 0 <= i < |s| ==> s[i] !in BLANKS
  }

  // The text of a file to reload can be anything.
  predicate CleanCommand(c: Command) {
    !c.ReloadCommand? && c.path.Some? ==> Clean(c.path.value)
  }

  lemma {:induction false} CleanTokens(s: string)
    requires Clean(s)
    ensures forall i :: 0 <= i < |Tokens(s, SLASH)| ==> Clean(Tokens(s, SLASH)[i])
    decreases |s|
  {
    if s != "" {
      if s[0] in SLASH {
        CleanTokens(s[1..]);
      } else {
        CleanTokens(s[Span(s, SLASH)..]);
      }
    }
  }

  lemma InsertSavable(t: Tree, at: Location, name: string, kind: char)
    requires Savable(t) && at in t && Clean(name) && kind in {'D', 'F'}
    ensures Savable(Insert(t, at, name, kind))
  {
    var r := Insert(t, at, name, kind);
    forall l | l in r
      ensures r[l].kind in {'D', 'F'} && forall x :: x in r[l].kids ==> Clean(x) {
      if l != Child(at, name) {
        assert t[l].kind in {'D', 'F'};
      }
    }
  }

  lemma NewFileSavable(t: Tree, cwd: Location, path: string, kind: char)
    requires WellFormed(t) && cwd in t && Savable(t) && Clean(path) && kind in {'D', 'F'}
    ensures Savable(NewFile(t, cwd, path, kind).tree)
  {
    hide WellFormed, Savable;
    var r := Navigate(t, cwd, path, true);
    NavigateStays(t, cwd, path, true);
    CleanTokens(path);
    if r.Found? {
      InsertSavable(t, r.at, LastToken(path), kind);
    }
  }

  lemma RemoveSavable(t: Tree, at: Location)
    requires WellFormed(t) && Savable(t)
    ensures Savable(Remove(t, at))
  {
    var r := Remove(t, at);
    forall l | l in r
      ensures r[l].kind in {'D', 'F'} && forall x :: x in r[l].kids ==> Clean(x) {
      assert NodeOk(t, l);
      assert t[l].kind in {'D', 'F'};
      if at != [] && l == Parent(at) {
        WithoutFacts(t[l].kids, at[|at| - 1]);
      }
    }
  }

  lemma NothingSavable()
    ensures Savable(map[])
  {
  }

  // A name that is read from a file has been cut off at blanks.
  lemma {:induction false} LoadSavable(t: Tree, lines: seq<string>)
    requires WellFormed(t) && Savable(t)
    ensures Savable(LoadLines(t, lines).tree)
    decreases |lines|
  {
    hide NewFile, Tokens, WellFormed, Savable;
    if lines != [] && Good(lines[0]) {
      var tokens := Tokens(lines[0], BLANKS);
      assert IsToken(tokens[1], BLANKS) && tokens[0][0] in {'D', 'F'};
      WellFormedRoot(t);
      NewFileKeeps(t, [], tokens[1], tokens[0][0]);
      NewFileSavable(t, [], tokens[1], tokens[0][0]);
      LoadSavable(NewFile(t, [], tokens[1], tokens[0][0]).tree, lines[1..]);
    }
  }

  lemma ExecuteSavable(s: System, c: Command)
    requires Live(s) && Savable(s.tree) && CleanCommand(c)
    ensures Savable(Execute(s, c).tree)
  {
    hide Savable, WellFormed;
    if Removes(s, c).Found? {
      RemoveSavable(s.tree, Removes(s, c).at);
    } else {
      match c
      case MkdirCommand(path) => if path.Some? { NewFileSavable(s.tree, s.cwd, path.value, 'D'); }
      case CreatCommand(path) => if path.Some? { NewFileSavable(s.tree, s.cwd, path.value, 'F'); }
      case ReloadCommand(file) =>
        NothingSavable();
        if file.Some? { LoadSavable(s.tree, Lines(file.value)); }
      case _ =>
    }
  }

  lemma {:induction false} RunSavable(s: System, commands: seq<Command>)
    requires Live(s) && Savable(s.tree) && SafeRun(s, commands)
    requires forall i :: 0 <= i < |commands| ==> CleanCommand(commands[i])
    ensures Live(Run(s, commands)) && Savable(Run(s, commands).tree)
    decreases |commands|
  {
    hide Live, Savable, Execute;
    if commands != [] {
      ExecuteKeeps(s, commands[0]);
      ExecuteSavable(s, commands[0]);
      RunSavable(Execute(s, commands[0]), commands[1..]);
    }
  }

  // Whatever commands were given, saving and reloading gives the tree back.
  lemma SaveReloadAfterRun(commands: seq<Command>)
    requires SafeRun(START, commands)
    requires forall i :: 0 <= i < |commands| ==> CleanCommand(commands[i])
    ensures var t := Run(START, commands).tree;
      && WellFormed(t)
      && Reload(ROOT_ONLY, Save(t)) == Loaded(t)
      && Reload(t, Save(t)) == Loaded(t)
  {
    hide Run, Reload;
    StartLive();
    RunSavable(START, commands);
    SaveReload(Run(START, commands).tree);
    ReloadUnchanged(Run(START, commands).tree);
  }
}
