/** The storage usage tree: directory sizes, counters and warnings of a recursive scan. */
module StorageUsage {
  import opened Common
  import opened Ordering
  import opened Strings

  /** What the scan finds on disk; a closed directory cannot be listed. */
  datatype Tree =
    | File(name: string, bytes: nat)
    | Directory(name: string, entries: seq<Entry>)
    | ClosedDirectory(name: string)
    | Symlink(name: string)
    | Unreadable(name: string)

  /** A directory entry; reading a single entry may fail. */
  datatype Entry = Failed | Found(tree: Tree)

  datatype Node = Node(name: string, path: string, isDirectory: bool, size: nat, children: seq<Node>)

  datatype Warning = CannotRead(path: string) | SkippedSymlink(path: string) | CannotList(path: string)

  function Slashed(path: string): (r: string)
    ensures |r| == |path| && '\\' !in r
    ensures '\\' !in path ==> r == path
  {
    seq(|path|, i requires 0 <= i < |path| => if path[i] == '\\' then '/' else path[i])
  }

  /** The path of an entry below a directory; the scanned root has the empty path. */
  function Below(path: string, name: string): string {
    if path == "" then name else path + "/" + name
  }

  function NameOf(t: Tree, path: string): string {
    if path == "" then "Root" else t.name
  }

  // ------------------------------------------------------------------ sorting

  /** Larger nodes first; nodes of one size by name. */
  predicate Precedes(a: Node, b: Node) {
    a.size > b.size || (a.size == b.size && !Before(b.name, a.name))
  }

  ghost predicate Ranked(nodes: seq<Node>) {
    forall i, j | 0 <= i < j < |nodes| :: Precedes(nodes[i], nodes[j])
  }

  function InsertNode(nodes: seq<Node>, x: Node): seq<Node> {
    if nodes == [] || Precedes(nodes[|nodes| - 1], x) then nodes + [x]
    else InsertNode(nodes[..|nodes| - 1], x) + [nodes[|nodes| - 1]]
  }

  /** `sort_by` with that comparison; the sort is stable. */
  function Rank(nodes: seq<Node>): seq<Node> {
    if nodes == [] then [] else InsertNode(Rank(nodes[..|nodes| - 1]), nodes[|nodes| - 1])
  }

  lemma PrecedesTransitive(a: Node, b: Node, c: Node)
    requires Precedes(a, b) && Precedes(b, c)
    ensures Precedes(a, c)
  {
    if a.size == b.size == c.size && Before(c.name, a.name) {
      BeforeTotal(a.name, b.name);
      BeforeTotal(b.name, c.name);
      if a.name != b.name {
        BeforeTransitive(c.name, a.name, b.name);
      }
      assert false;
    }
  }

  lemma {:induction false} InsertCounts(nodes: seq<Node>, x: Node)
    ensures multiset(InsertNode(nodes, x)) == multiset(nodes) + multiset{x}
  {
    if nodes != [] && !Precedes(nodes[|nodes| - 1], x) {
      var n := |nodes| - 1;
      InsertCounts(nodes[..n], x);
      assert nodes == nodes[..n] + [nodes[n]];
    }
  }

  lemma {:induction false} InsertRanks(nodes: seq<Node>, x: Node)
    requires Ranked(nodes)
    ensures Ranked(InsertNode(nodes, x))
    ensures forall y | y in InsertNode(nodes, x) :: y == x || y in nodes
  {
    if nodes != [] {
      var n := |nodes| - 1;
      var last := nodes[n];
      if Precedes(last, x) {
        forall i | 0 <= i < n ensures Precedes(nodes[i], x) {
          PrecedesTransitive(nodes[i], last, x);
        }
      } else {
        InsertRanks(nodes[..n], x);
        BeforeTotal(x.name, last.name);
        var r := InsertNode(nodes[..n], x);
        assert forall i | 0 <= i < |r| :: r[i] in r;
      }
    }
  }

  /** The children are a permutation of what was listed, larger first, then by name. */
  lemma {:induction false} RankExact(nodes: seq<Node>)
    ensures Ranked(Rank(nodes)) && multiset(Rank(nodes)) == multiset(nodes)
  {
    if nodes != [] {
      var n := |nodes| - 1;
      RankExact(nodes[..n]);
      InsertRanks(Rank(nodes[..n]), nodes[n]);
      InsertCounts(Rank(nodes[..n]), nodes[n]);
      assert nodes == nodes[..n] + [nodes[n]];
    }
  }

  function TotalSize(nodes: seq<Node>): nat {
    if nodes == [] then 0 else TotalSize(nodes[..|nodes| - 1]) + nodes[|nodes| - 1].size
  }

  lemma {:induction false} TotalAfterInsert(nodes: seq<Node>, x: Node)
    ensures TotalSize(InsertNode(nodes, x)) == TotalSize(nodes) + x.size
  {
    var r := InsertNode(nodes, x);
    if nodes != [] && !Precedes(nodes[|nodes| - 1], x) {
      TotalAfterInsert(nodes[..|nodes| - 1], x);
      assert r[..|r| - 1] == InsertNode(nodes[..|nodes| - 1], x);
    } else {
      assert r[..|r| - 1] == nodes;
    }
  }

  lemma {:induction false} TotalAfterRank(nodes: seq<Node>)
    ensures TotalSize(Rank(nodes)) == TotalSize(nodes)
  {
    if nodes != [] {
      TotalAfterRank(nodes[..|nodes| - 1]);
      TotalAfterInsert(Rank(nodes[..|nodes| - 1]), nodes[|nodes| - 1]);
    }
  }

  // ------------------------------------------------------------ what a scan yields

  function Usage(t: Tree, path: string): Node
    decreases t
  {
    match t
    case File(_, bytes) => Node(NameOf(t, path), Slashed(path), false, bytes, [])
    case ClosedDirectory(_) => Node(NameOf(t, path), Slashed(path), true, 0, [])
    case Directory(_, entries) =>
      var children := Rank(Listed(t, |entries|, path));
      Node(NameOf(t, path), Slashed(path), true, TotalSize(children), children)
    case _ => Node(NameOf(t, path), Slashed(path), false, 0, [])
  }

  /** The nodes of a directory's first `n` entries before they are sorted; entries that failed are left out. */
  function Listed(t: Tree, n: nat, path: string): seq<Node>
    requires t.Directory? && n <= |t.entries|
    decreases t, n
  {
    if n == 0 then []
    else Listed(t, n - 1, path) + EntryNodes(t.entries[n - 1], path)
  }

  function EntryNodes(e: Entry, path: string): seq<Node>
    decreases e
  {
    match e
    case Failed => []
    case Found(t) => [Usage(t, Below(path, t.name))]
  }

  function Warnings(t: Tree, path: string): seq<Warning>
    decreases t
  {
    match t
    case File(_, _) => []
    case ClosedDirectory(_) => [CannotList(Slashed(path))]
    case Directory(_, entries) => WarningsIn(t, |entries|, path)
    case Symlink(_) => [SkippedSymlink(Slashed(path))]
    case Unreadable(_) => [CannotRead(Slashed(path))]
  }

  function WarningsIn(t: Tree, n: nat, path: string): seq<Warning>
    requires t.Directory? && n <= |t.entries|
    decreases t, n
  {
    if n == 0 then []
    else WarningsIn(t, n - 1, path) + EntryWarnings(t.entries[n - 1], path)
  }

  function EntryWarnings(e: Entry, path: string): seq<Warning>
    decreases e
  {
    match e
    case Failed => []
    case Found(t) => Warnings(t, Below(path, t.name))
  }

  datatype What = Files | Directories | Symlinks | Closed | Lost | FailedEntries | Everything

  function Own(t: Tree, w: What): nat {
    match w
    case Files => if t.File? then 1 else 0
    case Directories => if t.Directory? || t.ClosedDirectory? then 1 else 0
    case Symlinks => if t.Symlink? then 1 else 0
    case Closed => if t.ClosedDirectory? then 1 else 0
    case Lost => if t.Unreadable? then 1 else 0
    case FailedEntries => 0
    case Everything => 1
  }

  /** How much of one sort of thing a tree holds. */
  function Count(t: Tree, w: What): nat
    decreases t
  {
    Own(t, w) + if t.Directory? then CountIn(t, |t.entries|, w) else 0
  }

  function CountIn(t: Tree, n: nat, w: What): nat
    requires t.Directory? && n <= |t.entries|
    decreases t, n
  {
    if n == 0 then 0
    else CountIn(t, n - 1, w) + EntryCount(t.entries[n - 1], w)
  }

  function EntryCount(e: Entry, w: What): nat
    decreases e
  {
    match e
    case Failed => if w == FailedEntries || w == Everything then 1 else 0
    case Found(t) => Count(t, w)
  }

  /** The bytes of all regular files that the scan can reach. */
  function Bytes(t: Tree): nat
    decreases t
  {
    match t
    case File(_, bytes) => bytes
    case Directory(_, entries) => BytesIn(t, |entries|)
    case _ => 0
  }

  function BytesIn(t: Tree, n: nat): nat
    requires t.Directory? && n <= |t.entries|
    decreases t, n
  {
    if n == 0 then 0
    else BytesIn(t, n - 1) + match t.entries[n - 1] case Failed => 0 case Found(e) => Bytes(e)
  }

  // ------------------------------------------------------------------ the scan

  class Scan {
    var files: nat
    var directories: nat
    var warnings: seq<Warning>

    constructor ()
      ensures files == directories == 0 && warnings == []
    {
      files, directories, warnings := 0, 0, [];
    }

    /** `build_usage_tree`. */
    method Build(t: Tree, path: string) returns (node: Node)
      modifies this
      ensures node == Usage(t, path)
      ensures files == old(files) + Count(t, Files)
      ensures directories == old(directories) + Count(t, Directories)
      ensures warnings == old(warnings) + Warnings(t, path)
      decreases t
    {
      var name := NameOf(t, path);
      match t
      case Unreadable(_) =>
        warnings := warnings + [CannotRead(Slashed(path))];
        return Node(name, Slashed(path), false, 0, []);
      case Symlink(_) =>
        warnings := warnings + [SkippedSymlink(Slashed(path))];
        return Node(name, Slashed(path), false, 0, []);
      case File(_, bytes) =>
        files := files + 1;
        return Node(name, Slashed(path), false, bytes, []);
      case ClosedDirectory(_) =>
        directories := directories + 1;
        warnings := warnings + [CannotList(Slashed(path))];
        return Node(name, Slashed(path), true, 0, []);
      case Directory(_, _) =>
        directories := directories + 1;
        var children := BuildAll(t, path);
        children := Rank(children);
        var size := SumSizes(children);
        return Node(name, Slashed(path), true, size, children);
    }

    /** The loop over a listing. */
    method BuildAll(t: Tree, path: string) returns (children: seq<Node>)
      requires t.Directory?
      modifies this
      ensures children == Listed(t, |t.entries|, path)
      ensures files == old(files) + CountIn(t, |t.entries|, Files)
      ensures directories == old(directories) + CountIn(t, |t.entries|, Directories)
      ensures warnings == old(warnings) + WarningsIn(t, |t.entries|, path)
      decreases t, 0
    {
      children := [];
      for i := 0 to |t.entries|
        invariant children == Listed(t, i, path)
        invariant files == old(files) + CountIn(t, i, Files)
        invariant directories == old(directories) + CountIn(t, i, Directories)
        invariant warnings == old(warnings) + WarningsIn(t, i, path)
      {
        var found := BuildEntry(t.entries[i], path);
        children := children + found;
      }
    }

    /** One entry of a listing: no node when it could not be read. */
    method BuildEntry(e: Entry, path: string) returns (found: seq<Node>)
      modifies this
      ensures found == EntryNodes(e, path)
      ensures files == old(files) + EntryCount(e, Files)
      ensures directories == old(directories) + EntryCount(e, Directories)
      ensures warnings == old(warnings) + EntryWarnings(e, path)
      decreases e
    {
      if e.Failed? {
        return [];
      }
      var child := Build(e.tree, Below(path, e.tree.name));
      return [child];
    }
  }

  method SumSizes(nodes: seq<Node>) returns (size: nat)
    ensures size == TotalSize(nodes)
  {
    size := 0;
    for i := 0 to |nodes|
      invariant size == TotalSize(nodes[..i])
    {
      assert nodes[..i + 1][..i] == nodes[..i];
      size := size + nodes[i].size;
    }
    assert nodes[..|nodes|] == nodes;
  }

  // ---------------------------------------------------------------- what it means

  /** A node's size is the size of every regular file that the scan reaches beneath it. */
  lemma {:induction false} SizeExact(t: Tree, path: string)
    ensures Usage(t, path).size == Bytes(t)
    decreases t
  {
    if t.Directory? {
      ListedSize(t, |t.entries|, path);
      TotalAfterRank(Listed(t, |t.entries|, path));
    }
  }

  lemma {:induction false} ListedSize(t: Tree, n: nat, path: string)
    requires t.Directory? && n <= |t.entries|
    ensures TotalSize(Listed(t, n, path)) == BytesIn(t, n)
    decreases t, n
  {
    if n > 0 {
      var before := Listed(t, n - 1, path);
      ListedSize(t, n - 1, path);
      match t.entries[n - 1]
      case Failed => assert Listed(t, n, path) == before;
      case Found(e) =>
        SizeExact(e, Below(path, e.name));
        assert Listed(t, n, path)[..|before|] == before;
    }
  }

  /** What the counters count, what the warnings name and what the listing lost are together all there is. */
  lemma {:induction false} NothingUncounted(t: Tree, path: string)
    ensures Count(t, Files) + Count(t, Directories) + Count(t, Symlinks) + Count(t, Lost) + Count(t, FailedEntries) ==
            Count(t, Everything)
    ensures |Warnings(t, path)| == Count(t, Symlinks) + Count(t, Lost) + Count(t, Closed)
    decreases t
  {
    if t.Directory? {
      NothingUncountedIn(t, |t.entries|, path);
    }
  }

  lemma {:induction false} NothingUncountedIn(t: Tree, n: nat, path: string)
    requires t.Directory? && n <= |t.entries|
    ensures CountIn(t, n, Files) + CountIn(t, n, Directories) + CountIn(t, n, Symlinks) + CountIn(t, n, Lost) +
            CountIn(t, n, FailedEntries) == CountIn(t, n, Everything)
    ensures |WarningsIn(t, n, path)| == CountIn(t, n, Symlinks) + CountIn(t, n, Lost) + CountIn(t, n, Closed)
    decreases t, n
  {
    if n > 0 {
      NothingUncountedIn(t, n - 1, path);
      if t.entries[n - 1].Found? {
        NothingUncounted(t.entries[n - 1].tree, Below(path, t.entries[n - 1].tree.name));
      }
    }
  }

  /** Nothing beneath has an empty name. */
  ghost predicate Named(t: Tree)
    decreases t
  {
    t.Directory? ==> forall e | e in t.entries && e.Found? :: e.tree.name != "" && Named(e.tree)
  }

  /** The names on the way from the scanned root, none of them empty. */
  ghost predicate Trail(names: seq<string>) {
    forall name | name in names :: name != ""
  }

  lemma {:induction false} JoinLast(names: seq<string>, name: string, sep: string)
    requires names != []
    ensures Join(names + [name], sep) == Join(names, sep) + sep + name
  {
    if |names| == 1 {
      assert (names + [name])[1..] == [name];
    } else {
      assert (names + [name])[1..] == names[1..] + [name];
      JoinLast(names[1..], name, sep);
    }
  }

  /** The path of an entry is the names on the way to it, joined by slashes. */
  lemma BelowJoins(names: seq<string>, name: string)
    requires Trail(names) && name != ""
    ensures Below(Join(names, "/"), name) == Join(names + [name], "/") && Trail(names + [name])
    ensures Join(names, "/") == "" <==> names == []
  {
    if names == [] {
      assert names + [name] == [name];
    } else {
      JoinLast(names, name, "/");
      assert names[0] in names;
    }
  }

  /** Everything that was found, with the names on the way to it, in the order of the scan. */
  function Places(t: Tree, names: seq<string>): seq<(Tree, seq<string>)>
    decreases t
  {
    [(t, names)] + if t.Directory? then PlacesIn(t, |t.entries|, names) else []
  }

  function PlacesIn(t: Tree, n: nat, names: seq<string>): seq<(Tree, seq<string>)>
    requires t.Directory? && n <= |t.entries|
    decreases t, n
  {
    if n == 0 then []
    else PlacesIn(t, n - 1, names) + EntryPlaces(t.entries[n - 1], names)
  }

  function EntryPlaces(e: Entry, names: seq<string>): seq<(Tree, seq<string>)>
    decreases e
  {
    match e
    case Failed => []
    case Found(t) => Places(t, names + [t.name])
  }

  /** A path is shown with slashes for backslashes. */
  ghost predicate Shows(shown: string, path: string) {
    |shown| == |path| && forall i | 0 <= i < |path| :: shown[i] == if path[i] == '\\' then '/' else path[i]
  }

  /** The one warning that a thing earns by itself, if any. */
  ghost predicate Earns(t: Tree, names: seq<string>, warnings: seq<Warning>) {
    match t
    case ClosedDirectory(_) =>
      |warnings| == 1 && warnings[0].CannotList? && Shows(warnings[0].path, Join(names, "/"))
    case Symlink(_) => |warnings| == 1 && warnings[0].SkippedSymlink? && Shows(warnings[0].path, Join(names, "/"))
    case Unreadable(_) => |warnings| == 1 && warnings[0].CannotRead? && Shows(warnings[0].path, Join(names, "/"))
    case _ => warnings == []
  }

  /** The list is made of what each place earns, in order. */
  ghost predicate EarnedBy(places: seq<(Tree, seq<string>)>, warnings: seq<Warning>) {
    if places == [] then warnings == []
    else
      var n := |places| - 1;
      exists k | 0 <= k <= |warnings| ::
        EarnedBy(places[..n], warnings[..k]) && Earns(places[n].0, places[n].1, warnings[k..])
  }

  lemma {:induction false} EarnedConcat(
    a: seq<(Tree, seq<string>)>, b: seq<(Tree, seq<string>)>, x: seq<Warning>, y: seq<Warning>)
    requires EarnedBy(a, x) && EarnedBy(b, y)
    ensures EarnedBy(a + b, x + y)
  {
    if b == [] {
      assert a + b == a && x + y == x;
    } else {
      var n := |b| - 1;
      var k :| 0 <= k <= |y| && EarnedBy(b[..n], y[..k]) && Earns(b[n].0, b[n].1, y[k..]);
      EarnedConcat(a, b[..n], x, y[..k]);
      assert (a + b)[..|a + b| - 1] == a + b[..n];
      assert (x + y)[..|x| + k] == x + y[..k] && (x + y)[|x| + k..] == y[k..];
    }
  }

  lemma EarnedOne(t: Tree, names: seq<string>, warnings: seq<Warning>)
    requires Earns(t, names, warnings)
    ensures EarnedBy([(t, names)], warnings)
  {
    assert [(t, names)][..0] == [] && warnings[..0] == [] && warnings[0..] == warnings;
  }

  /**
   * The warnings name exactly the closed directories, symlinks and unreadable things, each by its kind and by the names
   * on the way to it, in scan order.
   */
  lemma {:induction false} WarningsExact(t: Tree, names: seq<string>)
    requires Named(t) && Trail(names)
    ensures EarnedBy(Places(t, names), Warnings(t, Join(names, "/")))
    decreases t
  {
    var path := Join(names, "/");
    if t.Directory? {
      EarnedOne(t, names, []);
      WarningsInExact(t, |t.entries|, names);
      EarnedConcat([(t, names)], PlacesIn(t, |t.entries|, names), [], WarningsIn(t, |t.entries|, path));
      assert [] + WarningsIn(t, |t.entries|, path) == Warnings(t, path);
    } else {
      EarnedOne(t, names, Warnings(t, path));
      assert Places(t, names) == [(t, names)];
    }
  }

  lemma {:induction false} WarningsInExact(t: Tree, n: nat, names: seq<string>)
    requires t.Directory? && n <= |t.entries| && Named(t) && Trail(names)
    ensures EarnedBy(PlacesIn(t, n, names), WarningsIn(t, n, Join(names, "/")))
    decreases t, n
  {
    if n > 0 {
      var e, path := t.entries[n - 1], Join(names, "/");
      WarningsInExact(t, n - 1, names);
      if e.Found? {
        assert e in t.entries;
        BelowJoins(names, e.tree.name);
        WarningsExact(e.tree, names + [e.tree.name]);
      }
      EarnedConcat(PlacesIn(t, n - 1, names), EntryPlaces(e, names), WarningsIn(t, n - 1, path), EntryWarnings(e, path));
    }
  }

  /**
   * The node is for this thing at this place: its path is the names on the way, its name the last of them or "Root", and
   * its children are nodes for entries of the directory, in the same sense.
   */
  ghost predicate Located(node: Node, t: Tree, names: seq<string>)
    decreases t
  {
    && Shows(node.path, Join(names, "/"))
    && node.name == (if names == [] then "Root" else names[|names| - 1])
    && node.isDirectory == (t.Directory? || t.ClosedDirectory?)
    && (!t.Directory? ==> node.children == [] && node.size == (if t.File? then t.bytes else 0))
    && (t.Directory? ==> forall c | c in node.children ::
          exists i | 0 <= i < |t.entries| ::
            t.entries[i].Found? && Located(c, t.entries[i].tree, names + [t.entries[i].tree.name]))
  }

  lemma {:induction false} AnswerLocated(t: Tree, names: seq<string>)
    requires Named(t) && Trail(names) && (names != [] ==> names[|names| - 1] == t.name)
    ensures Located(Usage(t, Join(names, "/")), t, names)
    decreases t
  {
    var path := Join(names, "/");
    BelowJoins(names, "x");
    if t.Directory? {
      var listed := Listed(t, |t.entries|, path);
      RankExact(listed);
      ListedLocated(t, |t.entries|, names);
      forall c | c in Rank(listed) ensures c in listed {
        assert c in multiset(Rank(listed)) && c in multiset(listed);
      }
    }
  }

  lemma {:induction false} ListedLocated(t: Tree, n: nat, names: seq<string>)
    requires t.Directory? && n <= |t.entries| && Named(t) && Trail(names)
    ensures forall c | c in Listed(t, n, Join(names, "/")) ::
              exists i | 0 <= i < n ::
                t.entries[i].Found? && Located(c, t.entries[i].tree, names + [t.entries[i].tree.name])
    decreases t, n
  {
    if n > 0 {
      var e := t.entries[n - 1];
      ListedLocated(t, n - 1, names);
      if e.Found? {
        assert e in t.entries;
        BelowJoins(names, e.tree.name);
        AnswerLocated(e.tree, names + [e.tree.name]);
      }
    }
  }

  ghost predicate IsKind(t: Tree, w: What) {
    match w
    case Files => t.File?
    case Directories => t.Directory? || t.ClosedDirectory?
    case Symlinks => t.Symlink?
    case Closed => t.ClosedDirectory?
    case Lost => t.Unreadable?
    case _ => false
  }

  /** How many entries of a listing could not be read. */
  ghost function Unread(entries: seq<Entry>): nat {
    if entries == [] then 0 else Unread(entries[..|entries| - 1]) + if entries[|entries| - 1].Failed? then 1 else 0
  }

  /** How many places hold a thing of a kind, and how many entries all listings of these places lack. */
  ghost function Tally(places: seq<(Tree, seq<string>)>, w: What): nat {
    if places == [] then 0
    else
      var t := places[|places| - 1].0;
      Tally(places[..|places| - 1], w) +
      if w == FailedEntries then (if t.Directory? then Unread(t.entries) else 0) else if IsKind(t, w) then 1 else 0
  }

  lemma {:induction false} TallyConcat(a: seq<(Tree, seq<string>)>, b: seq<(Tree, seq<string>)>, w: What)
    ensures Tally(a + b, w) == Tally(a, w) + Tally(b, w)
  {
    if b == [] {
      assert a + b == a;
    } else {
      assert (a + b)[..|a + b| - 1] == a + b[..|b| - 1];
      TallyConcat(a, b[..|b| - 1], w);
    }
  }

  /** Counting is counting places: things of each kind, entries that could not be read, and everything together. */
  lemma {:induction false} CountExact(t: Tree, names: seq<string>, w: What)
    ensures w != Everything ==> Count(t, w) == Tally(Places(t, names), w)
    ensures Count(t, Everything) == |Places(t, names)| + Tally(Places(t, names), FailedEntries)
    decreases t
  {
    assert [(t, names)][..0] == [];
    if t.Directory? {
      CountInExact(t, |t.entries|, names, w);
      TallyConcat([(t, names)], PlacesIn(t, |t.entries|, names), w);
      TallyConcat([(t, names)], PlacesIn(t, |t.entries|, names), FailedEntries);
      assert t.entries[..|t.entries|] == t.entries;
    } else {
      assert Places(t, names) == [(t, names)];
    }
  }

  lemma {:induction false} CountInExact(t: Tree, n: nat, names: seq<string>, w: What)
    requires t.Directory? && n <= |t.entries|
    ensures var own := if w == FailedEntries then Unread(t.entries[..n]) else 0;
      w != Everything ==> CountIn(t, n, w) == Tally(PlacesIn(t, n, names), w) + own
    ensures CountIn(t, n, Everything) ==
            |PlacesIn(t, n, names)| + Tally(PlacesIn(t, n, names), FailedEntries) + Unread(t.entries[..n])
    decreases t, n
  {
    if n > 0 {
      var e := t.entries[n - 1];
      CountInExact(t, n - 1, names, w);
      TallyConcat(PlacesIn(t, n - 1, names), EntryPlaces(e, names), w);
      TallyConcat(PlacesIn(t, n - 1, names), EntryPlaces(e, names), FailedEntries);
      assert t.entries[..n][..n - 1] == t.entries[..n - 1];
      if e.Found? {
        CountExact(e.tree, names + [e.tree.name], w);
      }
    }
  }

  /** How many nodes an answer holds. */
  function Nodes(node: Node): nat
    decreases node
  {
    1 + NodesIn(node, |node.children|)
  }

  function NodesIn(node: Node, n: nat): nat
    requires n <= |node.children|
    decreases node, n
  {
    if n == 0 then 0 else NodesIn(node, n - 1) + Nodes(node.children[n - 1])
  }

  /** The same for a list of nodes. */
  function NodesOf(nodes: seq<Node>): nat {
    if nodes == [] then 0 else NodesOf(nodes[..|nodes| - 1]) + Nodes(nodes[|nodes| - 1])
  }

  lemma {:induction false} NodesInAgree(node: Node, n: nat)
    requires n <= |node.children|
    ensures NodesIn(node, n) == NodesOf(node.children[..n])
  {
    if n > 0 {
      NodesInAgree(node, n - 1);
      assert node.children[..n][..n - 1] == node.children[..n - 1];
    }
  }

  lemma {:induction false} NodesAfterInsert(nodes: seq<Node>, x: Node)
    ensures NodesOf(InsertNode(nodes, x)) == NodesOf(nodes) + Nodes(x)
  {
    var r := InsertNode(nodes, x);
    if nodes != [] && !Precedes(nodes[|nodes| - 1], x) {
      NodesAfterInsert(nodes[..|nodes| - 1], x);
      assert r[..|r| - 1] == InsertNode(nodes[..|nodes| - 1], x);
    } else {
      assert r[..|r| - 1] == nodes;
    }
  }

  lemma {:induction false} NodesAfterRank(nodes: seq<Node>)
    ensures NodesOf(Rank(nodes)) == NodesOf(nodes)
  {
    if nodes != [] {
      NodesAfterRank(nodes[..|nodes| - 1]);
      NodesAfterInsert(Rank(nodes[..|nodes| - 1]), nodes[|nodes| - 1]);
    }
  }

  /** Every entry that was read has its node in the answer; only failed entries are missing. */
  lemma {:induction false} EveryEntryShown(t: Tree, path: string)
    ensures Nodes(Usage(t, path)) + Count(t, FailedEntries) == Count(t, Everything)
    decreases t
  {
    var node := Usage(t, path);
    if t.Directory? {
      EveryEntryShownIn(t, |t.entries|, path);
      NodesAfterRank(Listed(t, |t.entries|, path));
      NodesInAgree(node, |node.children|);
      assert node.children[..|node.children|] == node.children;
    }
  }

  lemma {:induction false} EveryEntryShownIn(t: Tree, n: nat, path: string)
    requires t.Directory? && n <= |t.entries|
    ensures NodesOf(Listed(t, n, path)) + CountIn(t, n, FailedEntries) == CountIn(t, n, Everything)
    decreases t, n
  {
    if n > 0 {
      var before := Listed(t, n - 1, path);
      EveryEntryShownIn(t, n - 1, path);
      match t.entries[n - 1]
      case Failed => assert Listed(t, n, path) == before;
      case Found(e) =>
        EveryEntryShown(e, Below(path, e.name));
        assert Listed(t, n, path)[..|before|] == before;
    }
  }

  /** Throughout the answer: children are ranked, a directory is as large as its children, and only directories have any. */
  ghost predicate Tidy(node: Node)
    decreases node
  {
    && Ranked(node.children)
    && (node.isDirectory ==> node.size == TotalSize(node.children))
    && (!node.isDirectory ==> node.children == [])
    && forall c | c in node.children :: Tidy(c)
  }

  lemma {:induction false} AnswerTidy(t: Tree, path: string)
    ensures Tidy(Usage(t, path))
    decreases t
  {
    if t.Directory? {
      var listed := Listed(t, |t.entries|, path);
      ListedTidy(t, |t.entries|, path);
      RankExact(listed);
      forall c | c in Rank(listed) ensures Tidy(c) {
        assert c in multiset(Rank(listed)) && c in multiset(listed);
      }
    }
  }

  lemma {:induction false} ListedTidy(t: Tree, n: nat, path: string)
    requires t.Directory? && n <= |t.entries|
    ensures forall c | c in Listed(t, n, path) :: Tidy(c)
    decreases t, n
  {
    if n > 0 {
      ListedTidy(t, n - 1, path);
      if t.entries[n - 1].Found? {
        AnswerTidy(t.entries[n - 1].tree, Below(path, t.entries[n - 1].tree.name));
      }
    }
  }

  /** A directory's children are the nodes of its readable entries, no more and no fewer, larger first and then by name. */
  lemma ChildrenExact(t: Tree, path: string)
    requires t.Directory?
    ensures var children := Usage(t, path).children;
      Ranked(children) && multiset(children) == multiset(Listed(t, |t.entries|, path))
  {
    RankExact(Listed(t, |t.entries|, path));
  }
}
