/** The walk over the directory of job files (src/dsl/loader.rs). */
module Walk {
  import opened Wrappers
  import opened Dsl
  import opened Text
  import opened Ordering
  import opened Loader

  /******* The tree *******/

  // The children of a directory come in whatever order it is read in.
  datatype Node =
    | Dir(name: string, children: seq<Node>)
    | BrokenDir(name: string)
    | File(name: string, content: FileContent)

  // The names below the root.
  type Path = seq<string>

  function NodeName(node: Node): string {
    node.name
  }

  // `Path::extension` and `with_extension("")` of a file name: a dot in front begins a name.
  function Extension(name: string): Option<string> {
    match RFindChar(name, '.')
    case Some(i) =>
      RFindCharIs(name, '.');
      if i > 0 then Some(name[i + 1..]) else None
    case None => None
  }

  function Stem(name: string): string {
    match RFindChar(name, '.')
    case Some(i) =>
      RFindCharIs(name, '.');
      if i > 0 then name[..i] else name
    case None => name
  }

  predicate IsYaml(name: string) {
    Extension(name) == Some("yaml") || Extension(name) == Some("yml")
  }

  function Slashed(names: seq<string>): string {
    if names == [] then ""
    else if |names| == 1 then names[0]
    else names[0] + "/" + Slashed(names[1..])
  }

  function Dashed(s: string): string {
    seq(|s|, i requires 0 <= i < |s| => if s[i] == '/' || s[i] == '\\' then '-' else s[i])
  }

  function TrimDashes(s: string): string {
    if s == "" then ""
    else if s[0] == '-' then TrimDashes(s[1..])
    else if s[|s| - 1] == '-' then TrimDashes(s[..|s| - 1])
    else s
  }

  function GroupFromPath(path: Path): string {
    if path == [] then ""
    else TrimDashes(Dashed(Slashed(path[..|path| - 1] + [Stem(path[|path| - 1])])))
  }

  // Every YAML file in a sub-directory, at any depth, shares its group with the file beside that
  // directory whose name has a dash for the slash.
  lemma GroupsMayCollide(above: Path, dir: string, file: string)
    requires IsYaml(file)
    ensures IsYaml(dir + "-" + file)
    ensures GroupFromPath(above + [dir, file]) == GroupFromPath(above + [dir + "-" + file])
  {
    var nested, flat, stem := above + [dir, file], above + [dir + "-" + file], Stem(file);
    StemOfLonger(dir + "-", file);
    assert nested[..|nested| - 1] + [stem] == above + [dir, stem];
    assert flat[..|flat| - 1] + [dir + "-" + stem] == above + [dir + "-" + stem];
    SlashOrDash(above, dir, stem);
  }

  lemma {:induction false} SlashOrDash(above: Path, dir: string, stem: string)
    ensures Dashed(Slashed(above + [dir, stem])) == Dashed(Slashed(above + [dir + "-" + stem]))
  {
    if above == [] {
      assert above + [dir, stem] == [dir, stem] && [dir, stem][1..] == [stem];
      assert above + [dir + "-" + stem] == [dir + "-" + stem];
      assert Dashed(dir + "/" + stem) == Dashed(dir + "-" + stem);
    } else {
      SlashOrDash(above[1..], dir, stem);
      DashedUnder(above, [dir, stem]);
      DashedUnder(above, [dir + "-" + stem]);
    }
  }

  lemma DashedUnder(above: Path, last: seq<string>)
    requires above != [] && last != []
    ensures Dashed(Slashed(above + last)) == Dashed(above[0]) + "-" + Dashed(Slashed(above[1..] + last))
  {
    assert (above + last)[1..] == above[1..] + last;
  }

  lemma {:induction false} LastDotOfLonger(x: string, name: string)
    requires '.' in name
    ensures RFindChar(name, '.').Some? && RFindChar(x + name, '.') == Some(|x| + RFindChar(name, '.').value)
  {
    if name[|name| - 1] != '.' {
      var front := name[..|name| - 1];
      assert (x + name)[..|x + name| - 1] == x + front;
      LastDotOfLonger(x, front);
    }
  }

  lemma StemOfLonger(x: string, file: string)
    requires IsYaml(file)
    ensures Stem(x + file) == x + Stem(file) && IsYaml(x + file)
  {
    RFindCharIs(file, '.');
    LastDotOfLonger(x, file);
    var i := RFindChar(file, '.').value;
    assert (x + file)[..|x| + i] == x + file[..i] && (x + file)[|x| + i + 1..] == file[i + 1..];
  }

  // A name that the group keeps as it is.
  ghost predicate IsPlainName(name: string) {
    name != "" && forall i :: 0 <= i < |name| ==> name[i] != '-' && name[i] != '/' && name[i] != '\\'
  }

  ghost predicate IsPlainPath(path: Path) {
    path != [] && IsYaml(path[|path| - 1]) && forall i :: 0 <= i < |path| ==> IsPlainName(path[i])
  }

  // The path without its extension.
  function Stems(path: Path): Path
    requires path != []
  {
    path[..|path| - 1] + [Stem(path[|path| - 1])]
  }

  lemma PlainStem(file: string)
    requires IsYaml(file) && IsPlainName(file)
    ensures IsPlainName(Stem(file))
  {
    RFindCharIs(file, '.');
  }

  lemma PlainStems(path: Path)
    requires IsPlainPath(path)
    ensures forall i :: 0 <= i < |path| ==> IsPlainName(Stems(path)[i])
  {
    PlainStem(path[|path| - 1]);
  }

  ghost predicate AllPlain(names: seq<string>) {
    names != [] && forall i :: 0 <= i < |names| ==> IsPlainName(names[i])
  }

  function DashJoined(names: seq<string>): string {
    Dashed(Slashed(names))
  }

  // Names joined by dashes.
  lemma {:induction false} DashedNames(names: seq<string>)
    requires AllPlain(names)
    ensures var d := DashJoined(names);
      && d != "" && d[0] != '-' && d[|d| - 1] != '-'
      && d == names[0] + if |names| == 1 then "" else "-" + DashJoined(names[1..])
  {
    assert IsPlainName(names[0]) && Dashed(names[0]) == names[0];
    if |names| == 1 {
      assert names[0] + "" == names[0];
    } else {
      DashedNames(names[1..]);
      assert Slashed(names) == names[0] + "/" + Slashed(names[1..]);
      assert DashJoined(names) == names[0] + ("-" + DashJoined(names[1..]));
    }
  }

  // The first name, and whether there are more, can be read off.
  lemma FirstName(names: seq<string>)
    requires AllPlain(names)
    ensures SplitFirst(DashJoined(names), '-') == (names[0], if |names| == 1 then "" else "-" + DashJoined(names[1..]))
  {
    DashedNames(names);
    PlainHasNoDash(names[0]);
    SplitFirstIs(names[0], if |names| == 1 then "" else "-" + DashJoined(names[1..]), '-');
  }

  lemma PlainHasNoDash(name: string)
    requires IsPlainName(name)
    ensures '-' !in name
  {
  }

  lemma {:induction false} DashedIsInjective(a: seq<string>, b: seq<string>)
    requires AllPlain(a) && AllPlain(b) && DashJoined(a) == DashJoined(b)
    ensures a == b
  {
    FirstName(a);
    FirstName(b);
    assert a == [a[0]] + a[1..] && b == [b[0]] + b[1..];
    if |a| > 1 && |b| > 1 {
      SameTails(DashJoined(a[1..]), DashJoined(b[1..]));
      DashedIsInjective(a[1..], b[1..]);
    }
  }

  lemma SameTails(x: string, y: string)
    requires "-" + x == "-" + y
    ensures x == y
  {
    assert ("-" + x)[1..] == x && ("-" + y)[1..] == y;
  }

  // Without dashes and backslashes in their names, two YAML files share a group exactly when
  // they differ in the extension at most.
  lemma GroupsDiffer(p: Path, q: Path)
    requires IsPlainPath(p) && IsPlainPath(q)
    ensures GroupFromPath(p) == GroupFromPath(q) <==> Stems(p) == Stems(q)
  {
    PlainStems(p);
    PlainStems(q);
    DashedNames(Stems(p));
    DashedNames(Stems(q));
    if GroupFromPath(p) == GroupFromPath(q) {
      DashedIsInjective(Stems(p), Stems(q));
    }
  }

  /******* What a walk meets, in order *******/

  datatype Item = YamlFile(content: FileContent) | UnreadableDir

  datatype Event = Event(path: Path, item: Item)

  ghost predicate AllBelow(nodes: seq<Node>, dir: Node) {
    forall i :: 0 <= i < |nodes| ==> nodes[i] < dir
  }

  function Listing(dir: Node): (r: seq<Node>)
    requires dir.Dir?
    ensures forall node :: node in r <==> node in dir.children
    ensures AllBelow(r, dir)
  {
    SortedAreBelow(dir);
    Sort(dir.children, NodeName)
  }

  lemma SortedAreBelow(dir: Node)
    requires dir.Dir?
    ensures forall node :: node in Sort(dir.children, NodeName) <==> node in dir.children
    ensures AllBelow(Sort(dir.children, NodeName), dir)
  {
    var sorted := Sort(dir.children, NodeName);
    SameElements(sorted, dir.children);
    forall k | 0 <= k < |sorted|
      ensures sorted[k] < dir
    {
      assert sorted[k] in sorted;
      var i :| 0 <= i < |dir.children| && dir.children[i] == sorted[k];
    }
  }

  // The files and unreadable directories below a directory, depth first, in the order of names.
  ghost function DirEvents(path: Path, dir: Node): seq<Event>
    decreases dir, 1, 0
  {
    if dir.Dir? then AllEvents(path, Listing(dir), dir) else [Event(path, UnreadableDir)]
  }

  ghost function AllEvents(path: Path, nodes: seq<Node>, dir: Node): seq<Event>
    requires AllBelow(nodes, dir)
    decreases dir, 0, |nodes|
  {
    if nodes == [] then []
    else
      var last := nodes[|nodes| - 1];
      AllEvents(path, nodes[..|nodes| - 1], dir) + NodeEvents(path + [last.name], last)
  }

  ghost function NodeEvents(path: Path, node: Node): seq<Event>
    decreases node, 2, 0
  {
    if !node.File? then DirEvents(path, node)
    else if IsYaml(node.name) then [Event(path, YamlFile(node.content))]
    else []
  }

  /******* The walk *******/

  datatype FixtureAction = Ignore | Warn | Refuse

  // `isFixture` stands for `dev_fixture_pattern` on the displayed path.
  datatype Setting = Setting(policy: LoadPolicy, w: World, action: FixtureAction, isFixture: Path -> bool)

  datatype LoadedJob = LoadedJob(spec: JobSpec, sourcePath: Path)

  datatype WalkError = ReadDir(path: Path) | FixtureRefused(path: Path)

  function Tagged(specs: seq<JobSpec>, path: Path): seq<LoadedJob> {
    seq(|specs|, i requires 0 <= i < |specs| => LoadedJob(specs[i], path))
  }

  function FileJobs(path: Path, content: FileContent, s: Setting): Result<seq<JobSpec>, FileError> {
    LoadedFile(content, GroupFromPath(path), s.policy, s.w)
  }

  // The accumulators, and how the walk ends.
  datatype Progress = Progress(out: seq<LoadedJob>, yamlFilesSeen: nat, filesFailed: nat)

  datatype Walked = Walked(progress: Progress, result: Result<(), WalkError>)

  predicate IsFatal(e: Event, s: Setting) {
    e.item.UnreadableDir? || (s.action == Refuse && s.isFixture(e.path))
  }

  function Meet(e: Event, p: Progress, s: Setting): Walked {
    match e.item
    case UnreadableDir => Walked(p, Err(ReadDir(e.path)))
    case YamlFile(content) =>
      var seen := p.(yamlFilesSeen := p.yamlFilesSeen + 1);
      if IsFatal(e, s) then Walked(seen, Err(FixtureRefused(e.path)))
      else
        match FileJobs(e.path, content, s)
        case Ok(specs) => Walked(seen.(out := p.out + Tagged(specs, e.path)), Ok(()))
        case Err(_) => Walked(seen.(filesFailed := p.filesFailed + 1), Ok(()))
  }

  ghost function MeetAll(events: seq<Event>, p: Progress, s: Setting): Walked {
    if events == [] then Walked(p, Ok(()))
    else
      var before := MeetAll(events[..|events| - 1], p, s);
      if before.result.Err? then before else Meet(events[|events| - 1], before.progress, s)
  }

  lemma {:induction false} MeetAllConcat(a: seq<Event>, b: seq<Event>, p: Progress, s: Setting)
    ensures MeetAll(a + b, p, s) ==
      if MeetAll(a, p, s).result.Err? then MeetAll(a, p, s) else MeetAll(b, MeetAll(a, p, s).progress, s)
  {
    if b == [] {
      assert a + b == a;
    } else {
      var front := b[..|b| - 1];
      assert (a + b)[..|a + b| - 1] == a + front;
      MeetAllConcat(a, front, p, s);
    }
  }

  lemma {:induction false} ErrorSticks(path: Path, nodes: seq<Node>, dir: Node, i: nat, p: Progress, s: Setting)
    requires AllBelow(nodes, dir) && i <= |nodes| && MeetAll(AllEvents(path, nodes[..i], dir), p, s).result.Err?
    ensures MeetAll(AllEvents(path, nodes, dir), p, s) == MeetAll(AllEvents(path, nodes[..i], dir), p, s)
  {
    if i == |nodes| {
      assert nodes[..i] == nodes;
    } else {
      var front, last := nodes[..|nodes| - 1], nodes[|nodes| - 1];
      assert front[..i] == nodes[..i];
      ErrorSticks(path, front, dir, i, p, s);
      MeetAllConcat(AllEvents(path, front, dir), NodeEvents(path + [last.name], last), p, s);
    }
  }

  class Walker {
    var out: seq<LoadedJob>
    var yamlFilesSeen: nat
    var filesFailed: nat

    constructor ()
      ensures View() == Progress([], 0, 0)
    {
      out, yamlFilesSeen, filesFailed := [], 0, 0;
    }

    ghost function View(): Progress
      reads this
    {
      Progress(out, yamlFilesSeen, filesFailed)
    }

    method Visit(path: Path, content: FileContent, s: Setting) returns (r: Result<(), WalkError>)
      modifies this
      ensures Walked(View(), r) == Meet(Event(path, YamlFile(content)), old(View()), s)
    {
      yamlFilesSeen := yamlFilesSeen + 1;
      if s.isFixture(path) && s.action == Refuse {
        return Err(FixtureRefused(path));
      }
      var loaded := LoadFile(content, GroupFromPath(path), s.policy, s.w);
      match loaded {
        case Ok(specs) => out := out + Tagged(specs, path);
        case Err(_) => filesFailed := filesFailed + 1;
      }
      r := Ok(());
    }

    method Enter(path: Path, node: Node, s: Setting) returns (r: Result<(), WalkError>)
      modifies this
      ensures Walked(View(), r) == MeetAll(NodeEvents(path, node), old(View()), s)
      decreases node, 1
    {
      if !node.File? {
        r := Walk(path, node, s);
      } else {
        NodeMet(path, node, View(), s);
        if IsYaml(node.name) {
          r := Visit(path, node.content, s);
        } else {
          r := Ok(());
        }
      }
    }

    method Walk(path: Path, dir: Node, s: Setting) returns (r: Result<(), WalkError>)
      modifies this
      ensures Walked(View(), r) == MeetAll(DirEvents(path, dir), old(View()), s)
      decreases dir, 0
    {
      if !dir.Dir? {
        assert [Event(path, UnreadableDir)][..0] == [];
        return Err(ReadDir(path));
      }
      var paths := Listing(dir);
      for i := 0 to |paths|
        invariant Walked(View(), Ok(())) == MeetAll(AllEvents(path, paths[..i], dir), old(View()), s)
      {
        OneMore(path, paths, dir, i, old(View()), s);
        r := Enter(path + [paths[i].name], paths[i], s);
        if r.Err? {
          ErrorSticks(path, paths, dir, i + 1, old(View()), s);
          return r;
        }
      }
      assert paths[..|paths|] == paths;
      r := Ok(());
    }
  }

  lemma OneMore(path: Path, nodes: seq<Node>, dir: Node, i: nat, p: Progress, s: Setting)
    requires AllBelow(nodes, dir) && i < |nodes|
    requires MeetAll(AllEvents(path, nodes[..i], dir), p, s).result.Ok?
    ensures MeetAll(AllEvents(path, nodes[..i + 1], dir), p, s) ==
      MeetAll(NodeEvents(path + [nodes[i].name], nodes[i]), MeetAll(AllEvents(path, nodes[..i], dir), p, s).progress, s)
  {
    assert nodes[..i + 1][..i] == nodes[..i];
    MeetAllConcat(AllEvents(path, nodes[..i], dir), NodeEvents(path + [nodes[i].name], nodes[i]), p, s);
  }

  lemma NodeMet(path: Path, node: Node, p: Progress, s: Setting)
    requires node.File?
    ensures MeetAll(NodeEvents(path, node), p, s) ==
      if IsYaml(node.name) then Meet(Event(path, YamlFile(node.content)), p, s) else Walked(p, Ok(()))
  {
    if IsYaml(node.name) {
      var e := Event(path, YamlFile(node.content));
      assert [e][..0] == [];
      assert MeetAll([e][..0], p, s) == Walked(p, Ok(()));
    }
  }

  /******* The order in which directories are read does not matter *******/

  // A directory holds one child per name.
  ghost predicate WellNamed(node: Node) {
    node.Dir? ==>
      && (forall i, j :: 0 <= i < j < |node.children| ==> node.children[i].name != node.children[j].name)
      && (forall i :: 0 <= i < |node.children| ==> WellNamed(node.children[i]))
  }

  // The same tree, its directories read in another order.
  ghost predicate Reordered(t: Node, u: Node)
    decreases t, 1
  {
    if t.Dir? then
      && u.Dir? && t.name == u.name
      && (forall i :: 0 <= i < |t.children| ==> HasPartner(t, u, i))
      && (forall j :: 0 <= j < |u.children| ==> IsPartner(t, u, j))
    else t == u
  }

  ghost predicate HasPartner(t: Node, u: Node, i: int)
    requires t.Dir? && u.Dir? && 0 <= i < |t.children|
    decreases t, 0
  {
    exists j :: 0 <= j < |u.children| && Reordered(t.children[i], u.children[j])
  }

  ghost predicate IsPartner(t: Node, u: Node, j: int)
    requires t.Dir? && u.Dir? && 0 <= j < |u.children|
    decreases t, 0
  {
    exists i :: 0 <= i < |t.children| && Reordered(t.children[i], u.children[j])
  }

  function Names(nodes: seq<Node>): seq<string> {
    seq(|nodes|, i requires 0 <= i < |nodes| => nodes[i].name)
  }

  function Same(name: string): string {
    name
  }

  lemma ListingIsSorted(dir: Node)
    requires dir.Dir? && WellNamed(dir)
    ensures Sorted(Names(Listing(dir)), Same)
    ensures forall name :: name in Names(Listing(dir)) <==> exists i :: 0 <= i < |dir.children| && dir.children[i].name == name
  {
    assert DistinctNames(dir.children, NodeName);
    SortSorts(dir.children, NodeName);
    var nodes := Listing(dir);
    forall i, j | 0 <= i < j < |nodes|
      ensures Less(Names(nodes)[i], Names(nodes)[j])
    {
      assert Less(NodeName(nodes[i]), NodeName(nodes[j]));
    }
    forall name
      ensures name in Names(nodes) <==> exists i :: 0 <= i < |dir.children| && dir.children[i].name == name
    {
      if name in Names(nodes) {
        var i :| 0 <= i < |nodes| && nodes[i].name == name;
        assert nodes[i] in dir.children;
      }
      if i :| 0 <= i < |dir.children| && dir.children[i].name == name {
        assert dir.children[i] in nodes;
        var k :| 0 <= k < |nodes| && nodes[k] == dir.children[i];
        assert Names(nodes)[k] == name;
      }
    }
  }

  // A child has a partner of its name in the other tree, and is one.
  lemma Partner(t: Node, u: Node, i: nat) returns (j: nat)
    requires t.Dir? && Reordered(t, u) && i < |t.children|
    ensures u.Dir? && j < |u.children| && Reordered(t.children[i], u.children[j])
    ensures t.children[i].name == u.children[j].name
  {
    assert HasPartner(t, u, i);
    j :| 0 <= j < |u.children| && Reordered(t.children[i], u.children[j]);
  }

  lemma PartnerOf(t: Node, u: Node, j: nat) returns (i: nat)
    requires t.Dir? && Reordered(t, u) && u.Dir? && j < |u.children|
    ensures i < |t.children| && t.children[i].name == u.children[j].name
  {
    assert IsPartner(t, u, j);
    i :| 0 <= i < |t.children| && Reordered(t.children[i], u.children[j]);
  }

  lemma ReorderedNames(t: Node, u: Node)
    requires t.Dir? && u.Dir? && Reordered(t, u) && WellNamed(t) && WellNamed(u)
    ensures Names(Listing(t)) == Names(Listing(u))
  {
    ListingIsSorted(t);
    ListingIsSorted(u);
    var a, b := Names(Listing(t)), Names(Listing(u));
    forall name
      ensures name in a <==> name in b
    {
      if i :| 0 <= i < |t.children| && t.children[i].name == name {
        var j := Partner(t, u, i);
        assert u.children[j].name == name;
      }
      if j :| 0 <= j < |u.children| && u.children[j].name == name {
        var i := PartnerOf(t, u, j);
        assert t.children[i].name == name;
      }
    }
    SortedIsUnique(a, b, Same);
  }

  lemma ListedIsChild(dir: Node, k: nat) returns (i: nat)
    requires dir.Dir? && k < |Listing(dir)|
    ensures i < |dir.children| && dir.children[i] == Listing(dir)[k]
  {
    assert Listing(dir)[k] in dir.children;
    i :| 0 <= i < |dir.children| && dir.children[i] == Listing(dir)[k];
  }

  lemma SameNameSameChild(dir: Node, i: nat, j: nat)
    requires dir.Dir? && WellNamed(dir) && i < |dir.children| && j < |dir.children|
    requires dir.children[i].name == dir.children[j].name
    ensures i == j
  {
    assert forall a, b :: 0 <= a < b < |dir.children| ==> dir.children[a].name != dir.children[b].name;
  }

  lemma WellNamedChild(dir: Node, i: nat)
    requires dir.Dir? && WellNamed(dir) && i < |dir.children|
    ensures WellNamed(dir.children[i])
  {
  }

  lemma ReorderedListings(t: Node, u: Node, k: nat)
    requires t.Dir? && u.Dir? && Reordered(t, u) && WellNamed(t) && WellNamed(u)
    requires Names(Listing(t)) == Names(Listing(u)) && k < |Listing(t)|
    ensures k < |Listing(u)| && Reordered(Listing(t)[k], Listing(u)[k])
    ensures WellNamed(Listing(t)[k]) && WellNamed(Listing(u)[k])
  {
    assert |Names(Listing(u))| == |Listing(u)|;
    var i := ListedIsChild(t, k);
    var j := Partner(t, u, i);
    var m := ListedIsChild(u, k);
    assert u.children[m].name == Names(Listing(u))[k] == Names(Listing(t))[k] == u.children[j].name;
    SameNameSameChild(u, m, j);
    WellNamedChild(t, i);
    WellNamedChild(u, m);
  }

  ghost predicate Paired(ts: seq<Node>, us: seq<Node>) {
    && |ts| == |us|
    && forall k :: 0 <= k < |ts| ==> Reordered(ts[k], us[k]) && WellNamed(ts[k]) && WellNamed(us[k])
  }

  lemma ListingsArePaired(t: Node, u: Node)
    requires t.Dir? && u.Dir? && Reordered(t, u) && WellNamed(t) && WellNamed(u)
    ensures Paired(Listing(t), Listing(u))
  {
    ReorderedNames(t, u);
    assert |Names(Listing(t))| == |Listing(t)| && |Names(Listing(u))| == |Listing(u)|;
    forall k: nat | k < |Listing(t)|
      ensures Reordered(Listing(t)[k], Listing(u)[k]) && WellNamed(Listing(t)[k]) && WellNamed(Listing(u)[k])
    {
      ReorderedListings(t, u, k);
    }
  }

  // Whatever order the directories are read in, the walk meets the same files in the same order.
  lemma {:induction false} OrderDoesNotMatter(path: Path, t: Node, u: Node)
    requires Reordered(t, u) && WellNamed(t) && WellNamed(u)
    ensures NodeEvents(path, t) == NodeEvents(path, u)
    ensures DirEvents(path, t) == DirEvents(path, u)
    decreases t, 1, 0
  {
    if t.Dir? {
      ListingsArePaired(t, u);
      AllReordered(path, Listing(t), Listing(u), t, u);
    }
  }

  lemma {:induction false} AllReordered(path: Path, ts: seq<Node>, us: seq<Node>, t: Node, u: Node)
    requires AllBelow(ts, t) && AllBelow(us, u) && Paired(ts, us)
    ensures AllEvents(path, ts, t) == AllEvents(path, us, u)
    decreases t, 0, |ts|
  {
    if ts != [] {
      var last := ts[|ts| - 1];
      AllReordered(path, ts[..|ts| - 1], us[..|us| - 1], t, u);
      OrderDoesNotMatter(path + [last.name], last, us[|us| - 1]);
      assert last.name == us[|us| - 1].name;
    }
  }

  /******* What a walk comes to *******/

  // The jobs of the files that load.
  ghost function LoadedFrom(events: seq<Event>, s: Setting): seq<LoadedJob> {
    if events == [] then []
    else
      var last := events[|events| - 1];
      LoadedFrom(events[..|events| - 1], s) +
        if Loads(last, s) then Tagged(FileJobs(last.path, last.item.content, s).value, last.path) else []
  }

  predicate Loads(e: Event, s: Setting) {
    e.item.YamlFile? && FileJobs(e.path, e.item.content, s).Ok?
  }

  ghost function CountLoaded(events: seq<Event>, s: Setting): (n: nat)
    ensures n <= |events|
  {
    if events == [] then 0
    else CountLoaded(events[..|events| - 1], s) + if Loads(events[|events| - 1], s) then 1 else 0
  }

  // A walk succeeds exactly when it meets nothing fatal.
  lemma {:induction false} WalkSucceeds(events: seq<Event>, p: Progress, s: Setting)
    ensures MeetAll(events, p, s).result.Ok? <==> forall i :: 0 <= i < |events| ==> !IsFatal(events[i], s)
  {
    if events != [] {
      var front := events[..|events| - 1];
      WalkSucceeds(front, p, s);
      assert forall i :: 0 <= i < |front| ==> front[i] == events[i];
      OnlyFatalFails(events[|events| - 1], MeetAll(front, p, s).progress, s);
    }
  }

  lemma OnlyFatalFails(e: Event, p: Progress, s: Setting)
    ensures Meet(e, p, s).result.Err? <==> IsFatal(e, s)
  {
  }

  lemma MeetIsFatal(e: Event, p: Progress, s: Setting)
    ensures Meet(e, p, s).result.Err? <==> IsFatal(e, s)
    ensures IsFatal(e, s) ==>
      Meet(e, p, s).result.error == if e.item.UnreadableDir? then ReadDir(e.path) else FixtureRefused(e.path)
    ensures !IsFatal(e, s) && Loads(e, s) ==>
      Meet(e, p, s).progress ==
      Progress(p.out + Tagged(FileJobs(e.path, e.item.content, s).value, e.path), p.yamlFilesSeen + 1, p.filesFailed)
    ensures !IsFatal(e, s) && !Loads(e, s) ==>
      Meet(e, p, s).progress == Progress(p.out, p.yamlFilesSeen + 1, p.filesFailed + 1)
  {
  }

  // A walk that succeeds has seen every file, holds the jobs of those that load, in order, and
  // has counted the others.
  lemma {:induction false} WalkIsExact(events: seq<Event>, p: Progress, s: Setting)
    requires MeetAll(events, p, s).result.Ok?
    ensures MeetAll(events, p, s).progress ==
      Progress(p.out + LoadedFrom(events, s), p.yamlFilesSeen + |events|, p.filesFailed + (|events| - CountLoaded(events, s)))
  {
    if events != [] {
      var front, last := events[..|events| - 1], events[|events| - 1];
      WalkIsExact(front, p, s);
      MeetIsFatal(last, MeetAll(front, p, s).progress, s);
    }
  }

  // A walk that fails reports the first fatal thing it meets.
  lemma {:induction false} WalkReportsTheFirst(events: seq<Event>, p: Progress, s: Setting)
    requires MeetAll(events, p, s).result.Err?
    ensures exists i ::
      && 0 <= i < |events| && IsFatal(events[i], s) && (forall j :: 0 <= j < i ==> !IsFatal(events[j], s))
      && MeetAll(events, p, s).result.error ==
         if events[i].item.UnreadableDir? then ReadDir(events[i].path) else FixtureRefused(events[i].path)
  {
    var front := events[..|events| - 1];
    assert forall i :: 0 <= i < |front| ==> front[i] == events[i];
    if MeetAll(front, p, s).result.Err? {
      WalkReportsTheFirst(front, p, s);
    } else {
      WalkSucceeds(front, p, s);
      MeetIsFatal(events[|events| - 1], MeetAll(front, p, s).progress, s);
    }
  }

  /******* What is met is what is in the tree *******/

  // A YAML file or an unreadable directory at a path below a directory, itself at no name.
  ghost predicate Below(dir: Node, path: Path, item: Item)
    decreases |path|, 1
  {
    if path == [] then !dir.Dir? && item == UnreadableDir
    else dir.Dir? && exists i :: 0 <= i < |dir.children| && InNode(dir.children[i], path, item)
  }

  ghost predicate InNode(node: Node, path: Path, item: Item)
    requires path != []
    decreases |path|, 0
  {
    && path[0] == node.name
    && if node.File? then |path| == 1 && IsYaml(node.name) && item == YamlFile(node.content)
       else Below(node, path[1..], item)
  }

  lemma {:induction false} NodeEventsAreTheNode(at: Path, node: Node, e: Event)
    ensures e in NodeEvents(at + [node.name], node) <==> at < e.path && InNode(node, e.path[|at|..], e.item)
    decreases node, 1, 0
  {
    var here := at + [node.name];
    assert at < e.path ==> (here <= e.path <==> e.path[|at|..][0] == node.name);
    assert here <= e.path ==> e.path[|at|..][1..] == e.path[|here|..];
    if node.File? {
      assert here <= e.path && |e.path| == |here| <==> here == e.path;
    } else {
      DirEventsAreTheTree(here, node, e);
    }
  }

  lemma {:induction false} AllEventsAre(at: Path, nodes: seq<Node>, dir: Node, e: Event)
    requires AllBelow(nodes, dir)
    ensures e in AllEvents(at, nodes, dir) <==>
      exists i :: 0 <= i < |nodes| && e in NodeEvents(at + [nodes[i].name], nodes[i])
  {
    if nodes != [] {
      var front, last := nodes[..|nodes| - 1], nodes[|nodes| - 1];
      AllEventsAre(at, front, dir, e);
      assert forall i :: 0 <= i < |front| ==> front[i] == nodes[i];
    }
  }

  // The walk leaves out nothing, and adds nothing.
  lemma {:induction false} DirEventsAreTheTree(at: Path, dir: Node, e: Event)
    ensures e in DirEvents(at, dir) <==> at <= e.path && Below(dir, e.path[|at|..], e.item)
    decreases dir, 0, 0
  {
    if dir.Dir? {
      var nodes := Listing(dir);
      AllEventsAre(at, nodes, dir, e);
      forall i | 0 <= i < |nodes|
        ensures e in NodeEvents(at + [nodes[i].name], nodes[i]) <==> at < e.path && InNode(nodes[i], e.path[|at|..], e.item)
      {
        NodeEventsAreTheNode(at, nodes[i], e);
      }
      if at < e.path {
        ListedInNode(dir, at, e);
      }
    }
    assert at <= e.path ==> (e.path[|at|..] == [] <==> at == e.path);
  }

  lemma ListedInNode(dir: Node, at: Path, e: Event)
    requires dir.Dir? && at < e.path
    ensures Below(dir, e.path[|at|..], e.item) <==>
      exists i :: 0 <= i < |Listing(dir)| && InNode(Listing(dir)[i], e.path[|at|..], e.item)
  {
    var nodes, rest := Listing(dir), e.path[|at|..];
    if i :| 0 <= i < |nodes| && InNode(nodes[i], rest, e.item) {
      var k := ListedIsChild(dir, i);
      assert InNode(dir.children[k], rest, e.item);
    }
    if k :| 0 <= k < |dir.children| && InNode(dir.children[k], rest, e.item) {
      assert dir.children[k] in nodes;
      var i :| 0 <= i < |nodes| && nodes[i] == dir.children[k];
      assert InNode(nodes[i], rest, e.item);
    }
  }

  // A walk succeeds exactly when every directory of the tree can be read and, where fixtures
  // are refused, no YAML file of the tree is one.
  lemma SuccessMeansNoFixture(root: Node, p: Progress, s: Setting)
    ensures MeetAll(DirEvents([], root), p, s).result.Ok? <==>
      && (forall path :: !Below(root, path, UnreadableDir))
      && (s.action == Refuse ==> forall path, content :: Below(root, path, YamlFile(content)) ==> !s.isFixture(path))
  {
    var events := DirEvents([], root);
    WalkSucceeds(events, p, s);
    forall path, item
      ensures Event(path, item) in events <==> Below(root, path, item)
    {
      InWholeTree(root, Event(path, item));
    }
    if MeetAll(events, p, s).result.Ok? {
      forall path, item | Below(root, path, item)
        ensures !IsFatal(Event(path, item), s)
      {
        var i :| 0 <= i < |events| && events[i] == Event(path, item);
      }
    } else {
      var i :| 0 <= i < |events| && IsFatal(events[i], s);
      var Event(path, item) := events[i];
      assert Event(path, item) in events && Below(root, path, item);
      match item {
        case UnreadableDir => assert Below(root, path, UnreadableDir);
        case YamlFile(content) => assert Below(root, path, YamlFile(content));
      }
    }
  }

  lemma InWholeTree(root: Node, e: Event)
    ensures e in DirEvents([], root) <==> Below(root, e.path, e.item)
  {
    DirEventsAreTheTree([], root, e);
    assert e.path[0..] == e.path;
  }

  // `load_all_with_policy`: no root, no jobs.
  method LoadAll(root: Option<Node>, s: Setting) returns (r: Result<seq<LoadedJob>, WalkError>)
    ensures root.None? ==> r == Ok([])
    ensures root.Some? ==> var walked := MeetAll(DirEvents([], root.value), Progress([], 0, 0), s);
      r == if walked.result.Ok? then Ok(LoadedFrom(DirEvents([], root.value), s)) else Err(walked.result.error)
  {
    if root.None? {
      return Ok([]);
    }
    var walker := new Walker();
    var result := walker.Walk([], root.value, s);
    if result.Err? {
      return Err(result.error);
    }
    WalkIsExact(DirEvents([], root.value), Progress([], 0, 0), s);
    assert [] + LoadedFrom(DirEvents([], root.value), s) == LoadedFrom(DirEvents([], root.value), s);
    r := Ok(walker.out);
  }
}
