/**
 The entries of an archive of folders and files, and their names.

 A tree is what the walk finds, children in the order the listing sorts them. `shown` is the answer of
 `visible` for the entry; names are as they read, so two children of one folder may read the same.
 */
module ArchiveTree {
  import opened Common
  import opened Text

  datatype Node = Node(readable: string, shown: bool, what: What)
  datatype What = Unstatable | Symlink | File(size: nat) | Directory(listing: Listing) | Other
  datatype Listing = Unopened | Children(nodes: seq<Node>)

  datatype Kind = IsSymlink | IsFile(size: nat) | IsDirectory
  datatype Entry = Entry(name: string, kind: Kind)
  datatype Collected = Collected(entries: seq<Entry>, excluded: nat, unreadable: nat, totalBytes: nat)

  datatype Source = Source(entryName: string, kind: SourceKind)
  datatype SourceKind = FileSource(size: nat) | FolderSource(listing: Listing)

  const Nothing := Collected([], 0, 0, 0)

  function Plus(a: Collected, b: Collected): Collected {
    Collected(a.entries + b.entries, a.excluded + b.excluded, a.unreadable + b.unreadable, a.totalBytes + b.totalBytes)
  }

  // ----- Names

  function LastDot(s: string): (at: int)
    ensures -1 <= at < |s|
    ensures at >= 0 ==> s[at] == '.'
  {
    if s == "" then -1 else if s[|s| - 1] == '.' then |s| - 1 else LastDot(s[..|s| - 1])
  }

  /** Where a number goes into a name: before its last dot, or at its end if there is none but the first character. */
  function SplitArchiveName(readable: string): (r: (string, string))
    ensures r.0 + r.1 == readable
  {
    var at := LastDot(readable);
    if at <= 0 then (readable, "") else (readable[..at], readable[at..])
  }

  /** "a.tar.gz" splits before ".gz": whatever has no dot of its own is the extension. */
  lemma {:induction false} SplitAtLastDot(base: string, tail: string)
    requires base != "" && '.' !in tail
    ensures LastDot(base + "." + tail) == |base|
    ensures SplitArchiveName(base + "." + tail) == (base, "." + tail)
  {
    var s := base + "." + tail;
    if tail == "" {
      assert s[|s| - 1] == '.';
    } else {
      var shorter := tail[..|tail| - 1];
      assert s[..|s| - 1] == base + "." + shorter;
      assert s[|s| - 1] == tail[|tail| - 1];
      SplitAtLastDot(base, shorter);
    }
    assert s[..|base|] == base && s[|base|..] == "." + tail;
  }

  function Suffixed(readable: string, attempt: nat): string {
    var (base, extension) := SplitArchiveName(readable);
    base + " (" + Decimal(attempt) + ")" + extension
  }

  /** So "a.tar.gz" becomes "a.tar (1).gz", and a name whose only dot is its first character gets the number at its end. */
  lemma SuffixedExactly(base: string, tail: string, n: nat)
    requires base != "" && '.' !in tail
    ensures Suffixed(base + "." + tail, n) == base + " (" + Decimal(n) + ")." + tail
    ensures tail != "" ==> Suffixed("." + tail, n) == "." + tail + " (" + Decimal(n) + ")"
    ensures Suffixed(tail, n) == tail + " (" + Decimal(n) + ")"
  {
    SplitAtLastDot(base, tail);
    assert base + " (" + Decimal(n) + ")" + ("." + tail) == base + " (" + Decimal(n) + ")." + tail;
    NoDotBehind("." + tail);
    NoDotBehind(tail);
    hide LastDot, Decimal;
    assert tail + " (" + Decimal(n) + ")" + "" == tail + " (" + Decimal(n) + ")";
    assert "." + tail + " (" + Decimal(n) + ")" + "" == "." + tail + " (" + Decimal(n) + ")";
  }

  lemma {:induction false} NoDotBehind(s: string)
    requires forall i :: 1 <= i < |s| ==> s[i] != '.'
    ensures LastDot(s) <= 0
  {
    if s != "" && s[|s| - 1] != '.' { NoDotBehind(s[..|s| - 1]); }
  }

  lemma {:induction false} DecimalInjective(m: nat, n: nat)
    requires Decimal(m) == Decimal(n)
    ensures m == n
  {
    var dm, dn := Decimal(m), Decimal(n);
    assert dm[|dm| - 1] == "0123456789"[m % 10] && dn[|dn| - 1] == "0123456789"[n % 10];
    assert m % 10 == n % 10;
    if m >= 10 && n >= 10 {
      assert dm[..|dm| - 1] == Decimal(m / 10) && dn[..|dn| - 1] == Decimal(n / 10);
      DecimalInjective(m / 10, n / 10);
    } else {
      DecimalLonger(m);
      DecimalLonger(n);
    }
  }

  lemma DecimalLonger(n: nat)
    ensures |Decimal(n)| >= 1 && (n >= 10 ==> |Decimal(n)| >= 2)
  {
  }

  lemma SameMiddle(front: string, a: string, b: string, back: string)
    requires front + a + back == front + b + back
    ensures a == b
  {
    assert (front + a + back)[|front|..|front| + |a|] == a;
    assert (front + b + back)[|front|..|front| + |b|] == b;
  }

  lemma SuffixedInjective(readable: string, m: nat, n: nat)
    requires Suffixed(readable, m) == Suffixed(readable, n)
    ensures m == n
  {
    var (base, extension) := SplitArchiveName(readable);
    assert base + " (" + Decimal(m) + ")" + extension == (base + " (") + Decimal(m) + (")" + extension);
    assert base + " (" + Decimal(n) + ")" + extension == (base + " (") + Decimal(n) + (")" + extension);
    SameMiddle(base + " (", Decimal(m), Decimal(n), ")" + extension);
    DecimalInjective(m, n);
  }

  ghost function Tried(readable: string, n: nat): set<string> {
    set m | 1 <= m < n :: Suffixed(readable, m)
  }

  /** Pigeonhole: attempts that all gave taken names are no more than the taken names. */
  lemma {:induction false} TriedFit(taken: set<string>, readable: string, n: nat)
    requires n >= 1 && forall m :: 1 <= m < n ==> Suffixed(readable, m) in taken
    ensures Tried(readable, n) <= taken && |Tried(readable, n)| == n - 1 <= |taken|
  {
    hide Suffixed;
    if n == 1 {
      assert Tried(readable, 1) == {};
    } else {
      TriedFit(taken, readable, n - 1);
      assert Tried(readable, n) == Tried(readable, n - 1) + {Suffixed(readable, n - 1)};
      NewEachTime(readable, n - 1);
    }
    Cardinality(Tried(readable, n), taken);
  }

  lemma NewEachTime(readable: string, n: nat)
    ensures Suffixed(readable, n) !in Tried(readable, n)
  {
    hide Suffixed;
    if Suffixed(readable, n) in Tried(readable, n) {
      var m :| 1 <= m < n && Suffixed(readable, m) == Suffixed(readable, n);
      SuffixedInjective(readable, m, n);
    }
  }

  /** The least attempt from `n` on whose name is free. */
  function FirstFree(taken: set<string>, readable: string, n: nat): (k: nat)
    requires n >= 1 && forall m :: 1 <= m < n ==> Suffixed(readable, m) in taken
    ensures k >= n && Suffixed(readable, k) !in taken
    ensures forall m :: 1 <= m < k ==> Suffixed(readable, m) in taken
    decreases |taken| + 1 - n
  {
    TriedFit(taken, readable, n);
    if Suffixed(readable, n) !in taken then n
    else
      TriedFit(taken, readable, n + 1);
      FirstFree(taken, readable, n + 1)
  }

  function ArchiveName(taken: set<string>, readable: string): (name: string)
    ensures name !in taken && (readable !in taken ==> name == readable)
    ensures readable in taken ==> exists k :: k >= 1 && name == Suffixed(readable, k) && forall m :: 1 <= m < k ==> Suffixed(readable, m) in taken
  {
    if readable !in taken then readable else Suffixed(readable, FirstFree(taken, readable, 1))
  }

  predicate SlashFree(s: string) { '/' !in s }

  lemma ArchiveNameSlashFree(taken: set<string>, readable: string)
    requires SlashFree(readable)
    ensures SlashFree(ArchiveName(taken, readable))
  {
    if readable in taken {
      var n := FirstFree(taken, readable, 1);
      var (base, extension) := SplitArchiveName(readable);
      assert readable == base + extension;
      DecimalSlashFree(n);
    }
  }

  lemma {:induction false} DecimalSlashFree(n: nat)
    ensures SlashFree(Decimal(n))
  {
    if n >= 10 { DecimalSlashFree(n / 10); }
  }

  // ----- The walk

  function Walk(children: seq<Node>, taken: set<string>, dir: string): Collected
    decreases children, 1
  {
    if children == [] then Nothing
    else
      var name := ArchiveName(taken, children[0].readable);
      Plus(Visit(children[0], dir + "/" + name), Walk(children[1..], taken + {name}, dir))
  }

  function Visit(node: Node, name: string): Collected
    decreases node, 0
  {
    if !node.shown then Nothing.(excluded := 1)
    else
      match node.what
      case Unstatable => Nothing.(unreadable := 1)
      case Symlink => Nothing.(entries := [Entry(name, IsSymlink)])
      case File(size) => Nothing.(entries := [Entry(name, IsFile(size))], totalBytes := size)
      case Directory(listing) => Plus(Nothing.(entries := [Entry(name, IsDirectory)]), Open(listing, name))
      case Other => Nothing
  }

  function Open(listing: Listing, dir: string): Collected
    decreases listing
  {
    match listing
    case Unopened => Nothing.(unreadable := 1)
    case Children(nodes) => Walk(nodes, {}, dir)
  }

  function CollectSource(source: Source): Collected {
    match source.kind
    case FileSource(size) => Collected([Entry(source.entryName, IsFile(size))], 0, 0, size)
    case FolderSource(listing) => Plus(Nothing.(entries := [Entry(source.entryName, IsDirectory)]), Open(listing, source.entryName))
  }

  function Collect(sources: seq<Source>): Collected {
    if sources == [] then Nothing else Plus(CollectSource(sources[0]), Collect(sources[1..]))
  }

  // ----- No two entries share a name

  /** No name on disk holds a slash, at any depth. */
  ghost predicate NamesSlashFree(children: seq<Node>)
    decreases children, 1
  {
    forall i :: 0 <= i < |children| ==> SlashFree(children[i].readable) && BelowSlashFree(children[i])
  }

  ghost predicate BelowSlashFree(node: Node)
    decreases node, 0
  {
    node.what.Directory? && node.what.listing.Children? ==> NamesSlashFree(node.what.listing.nodes)
  }

  ghost predicate DistinctNames(entries: seq<Entry>) {
    forall i, j :: 0 <= i < j < |entries| ==> entries[i].name != entries[j].name
  }

  /** The first segment of a path. */
  function Top(path: string): string {
    if path == "" || path[0] == '/' then "" else [path[0]] + Top(path[1..])
  }

  lemma {:induction false} TopOf(segment: string, rest: string)
    requires SlashFree(segment) && (rest == "" || rest[0] == '/')
    ensures Top(segment + rest) == segment
  {
    if segment == "" {
      assert segment + rest == rest;
    } else {
      assert (segment + rest)[1..] == segment[1..] + rest;
      TopOf(segment[1..], rest);
    }
  }

  /** `name` lies in the folder `dir`, under the child called `Child(dir, name)`. */
  ghost predicate Inside(dir: string, name: string) {
    |dir| < |name| && name[..|dir| + 1] == dir + "/"
  }

  ghost function Child(dir: string, name: string): string
    requires Inside(dir, name)
  {
    Top(name[|dir| + 1..])
  }

  /** An entry below the child `x` of `dir`, or that child itself, is inside `dir` under `x`. */
  lemma ChildOf(dir: string, x: string, name: string)
    requires SlashFree(x) && (name == dir + "/" + x || Inside(dir + "/" + x, name))
    ensures Inside(dir, name) && Child(dir, name) == x
  {
    var rest := name[|dir| + 1 + |x|..];
    assert name == dir + "/" + x + rest by {
      if name != dir + "/" + x { assert name[..|dir + "/" + x| + 1] == dir + "/" + x + "/"; }
    }
    assert name[|dir| + 1..] == x + rest;
    TopOf(x, rest);
  }

  ghost predicate AllInside(entries: seq<Entry>, dir: string, taken: set<string>) {
    forall i :: 0 <= i < |entries| ==> Inside(dir, entries[i].name) && Child(dir, entries[i].name) !in taken
  }

  lemma DistinctJoin(a: seq<Entry>, b: seq<Entry>)
    requires DistinctNames(a) && DistinctNames(b)
    requires forall i, j :: 0 <= i < |a| && 0 <= j < |b| ==> a[i].name != b[j].name
    ensures DistinctNames(a + b)
  {
  }

  /** In one folder and everything below it, every entry has its own name, inside the folder, under a child not taken before. */
  lemma {:induction false} WalkDistinct(children: seq<Node>, taken: set<string>, dir: string)
    requires NamesSlashFree(children)
    ensures DistinctNames(Walk(children, taken, dir).entries)
    ensures AllInside(Walk(children, taken, dir).entries, dir, taken)
    decreases children, 1
  {
    if children != [] {
      var x := ArchiveName(taken, children[0].readable);
      ArchiveNameSlashFree(taken, children[0].readable);
      VisitDistinct(children[0], dir, x);
      assert forall i :: 0 <= i < |children[1..]| ==> children[1..][i] == children[i + 1];
      WalkDistinct(children[1..], taken + {x}, dir);
      var a, b := Visit(children[0], dir + "/" + x).entries, Walk(children[1..], taken + {x}, dir).entries;
      SplitAtChild(a, b, dir, x, taken);
    }
  }

  lemma SplitAtChild(a: seq<Entry>, b: seq<Entry>, dir: string, x: string, taken: set<string>)
    requires DistinctNames(a) && DistinctNames(b) && x !in taken
    requires AllInside(b, dir, taken + {x})
    requires forall i :: 0 <= i < |a| ==> Inside(dir, a[i].name) && Child(dir, a[i].name) == x
    ensures DistinctNames(a + b) && AllInside(a + b, dir, taken)
  {
    DistinctJoin(a, b);
  }

  lemma {:induction false} VisitDistinct(node: Node, dir: string, x: string)
    requires SlashFree(x) && BelowSlashFree(node)
    ensures var entries := Visit(node, dir + "/" + x).entries;
            && DistinctNames(entries)
            && forall i :: 0 <= i < |entries| ==> Inside(dir, entries[i].name) && Child(dir, entries[i].name) == x
    decreases node, 0
  {
    var name := dir + "/" + x;
    var entries := Visit(node, name).entries;
    if node.shown && node.what.Directory? { OpenDistinct(node.what.listing, name); }
    forall i | 0 <= i < |entries|
      ensures Inside(dir, entries[i].name) && Child(dir, entries[i].name) == x
    {
      ChildOf(dir, x, entries[i].name);
    }
  }

  lemma {:induction false} OpenDistinct(listing: Listing, name: string)
    requires listing.Children? ==> NamesSlashFree(listing.nodes)
    ensures var entries := [Entry(name, IsDirectory)] + Open(listing, name).entries;
            && DistinctNames(entries)
            && forall i :: 0 <= i < |entries| ==> entries[i].name == name || Inside(name, entries[i].name)
    decreases listing
  {
    if listing.Children? {
      WalkDistinct(listing.nodes, {}, name);
      DistinctJoin([Entry(name, IsDirectory)], Open(listing, name).entries);
    }
  }

  ghost predicate GoodSource(s: Source) {
    SlashFree(s.entryName) && (s.kind.FolderSource? && s.kind.listing.Children? ==> NamesSlashFree(s.kind.listing.nodes))
  }

  /** Over the whole archive no two entries share a name, when the sources have distinct slash-free names. */
  lemma {:induction false} CollectDistinct(sources: seq<Source>)
    requires forall i :: 0 <= i < |sources| ==> GoodSource(sources[i])
    requires forall i, j :: 0 <= i < j < |sources| ==> sources[i].entryName != sources[j].entryName
    ensures DistinctNames(Collect(sources).entries)
    ensures forall i :: 0 <= i < |Collect(sources).entries| ==>
              exists k :: 0 <= k < |sources| && Top(Collect(sources).entries[i].name) == sources[k].entryName
  {
    if sources != [] {
      SourceDistinct(sources[0]);
      CollectDistinct(sources[1..]);
      var a, b := CollectSource(sources[0]).entries, Collect(sources[1..]).entries;
      forall i | 0 <= i < |b|
        ensures exists k :: 1 <= k < |sources| && Top(b[i].name) == sources[k].entryName
      {
        var k :| 0 <= k < |sources[1..]| && Top(b[i].name) == sources[1..][k].entryName;
        assert sources[k + 1] == sources[1..][k];
      }
      DistinctJoin(a, b);
    }
  }

  lemma SourceDistinct(source: Source)
    requires GoodSource(source)
    ensures var entries := CollectSource(source).entries;
            && DistinctNames(entries)
            && forall i :: 0 <= i < |entries| ==> Top(entries[i].name) == source.entryName
  {
    var entries := CollectSource(source).entries;
    if source.kind.FolderSource? { OpenDistinct(source.kind.listing, source.entryName); }
    forall i | 0 <= i < |entries|
      ensures Top(entries[i].name) == source.entryName
    {
      var rest := entries[i].name[|source.entryName|..];
      if entries[i].name != source.entryName {
        assert entries[i].name[|source.entryName|] == entries[i].name[..|source.entryName| + 1][|source.entryName|] == '/';
      }
      assert entries[i].name == source.entryName + rest;
      TopOf(source.entryName, rest);
    }
  }

  // ----- What is listed

  /** The shown, readable part of a tree in archive order, whatever the entries are called. */
  function Listed(children: seq<Node>): seq<Kind>
    decreases children, 1
  {
    if children == [] then [] else ListedNode(children[0]) + Listed(children[1..])
  }

  function ListedNode(node: Node): seq<Kind>
    decreases node, 0
  {
    if !node.shown then []
    else
      match node.what
      case Unstatable => []
      case Symlink => [IsSymlink]
      case File(size) => [IsFile(size)]
      case Directory(Unopened) => [IsDirectory]
      case Directory(Children(nodes)) => [IsDirectory] + Listed(nodes)
      case Other => []
  }

  function Kinds(entries: seq<Entry>): seq<Kind> { seq(|entries|, i requires 0 <= i < |entries| => entries[i].kind) }

  function Sizes(entries: seq<Entry>): nat {
    if entries == [] then 0
    else (if entries[0].kind.IsFile? then entries[0].kind.size else 0) + Sizes(entries[1..])
  }

  lemma {:induction false} SizesJoin(a: seq<Entry>, b: seq<Entry>)
    ensures Sizes(a + b) == Sizes(a) + Sizes(b)
  {
    if a == [] {
      assert a + b == b;
    } else {
      assert (a + b)[1..] == a[1..] + b;
      SizesJoin(a[1..], b);
    }
  }

  /** Every shown entry is listed, in order, with its kind and size, and the byte total is that of the listed files. */
  lemma {:induction false} WalkListsTheShown(children: seq<Node>, taken: set<string>, dir: string)
    ensures var r := Walk(children, taken, dir); Kinds(r.entries) == Listed(children) && r.totalBytes == Sizes(r.entries)
    decreases children, 1
  {
    if children != [] {
      var name := ArchiveName(taken, children[0].readable);
      var a, b := Visit(children[0], dir + "/" + name), Walk(children[1..], taken + {name}, dir);
      VisitListsTheShown(children[0], dir + "/" + name);
      WalkListsTheShown(children[1..], taken + {name}, dir);
      SizesJoin(a.entries, b.entries);
      assert Kinds(a.entries + b.entries) == Kinds(a.entries) + Kinds(b.entries);
    }
  }

  lemma {:induction false} VisitListsTheShown(node: Node, name: string)
    ensures var r := Visit(node, name); Kinds(r.entries) == ListedNode(node) && r.totalBytes == Sizes(r.entries)
    decreases node, 0
  {
    if node.shown && node.what.Directory? && node.what.listing.Children? {
      var below := Walk(node.what.listing.nodes, {}, name);
      WalkListsTheShown(node.what.listing.nodes, {}, name);
      SizesJoin([Entry(name, IsDirectory)], below.entries);
      assert Kinds([Entry(name, IsDirectory)] + below.entries) == [IsDirectory] + Kinds(below.entries);
    }
  }

  /** A source is not asked whether it is shown: whoever collects resolved it already. */
  function ListedSource(source: Source): seq<Kind> {
    match source.kind
    case FileSource(size) => [IsFile(size)]
    case FolderSource(Unopened) => [IsDirectory]
    case FolderSource(Children(nodes)) => [IsDirectory] + Listed(nodes)
  }

  function ListedSources(sources: seq<Source>): seq<Kind> {
    if sources == [] then [] else ListedSource(sources[0]) + ListedSources(sources[1..])
  }

  lemma KindsJoin(a: seq<Entry>, b: seq<Entry>)
    ensures Kinds(a + b) == Kinds(a) + Kinds(b)
  {
  }

  /** The same of the whole archive, source by source. */
  lemma {:induction false} CollectListsTheShown(sources: seq<Source>)
    ensures var r := Collect(sources); Kinds(r.entries) == ListedSources(sources) && r.totalBytes == Sizes(r.entries)
  {
    assert Kinds([]) == [] && Sizes([]) == 0;
    hide CollectSource, ListedSource, Kinds, Sizes;
    if sources != [] {
      var a, b := CollectSource(sources[0]), Collect(sources[1..]);
      SourceListsTheShown(sources[0]);
      CollectListsTheShown(sources[1..]);
      SizesJoin(a.entries, b.entries);
      KindsJoin(a.entries, b.entries);
    }
  }

  lemma SourceListsTheShown(source: Source)
    ensures var r := CollectSource(source); Kinds(r.entries) == ListedSource(source) && r.totalBytes == Sizes(r.entries)
  {
    if source.kind.FolderSource? && source.kind.listing.Children? {
      var below := Walk(source.kind.listing.nodes, {}, source.entryName);
      WalkListsTheShown(source.kind.listing.nodes, {}, source.entryName);
      SizesJoin([Entry(source.entryName, IsDirectory)], below.entries);
      KindsJoin([Entry(source.entryName, IsDirectory)], below.entries);
      hide Walk, Listed;
    }
  }

  // ----- What is counted, and what keeps its name

  /** Every entry the walk comes to: the children of a folder, and of each folder among them that is shown and opens. */
  function Met(children: seq<Node>): seq<Node>
    decreases children, 1
  {
    if children == [] then [] else MetAt(children[0]) + Met(children[1..])
  }

  function MetAt(node: Node): seq<Node>
    decreases node, 0
  {
    [node] + match node.what case Directory(Children(nodes)) => (if node.shown then Met(nodes) else []) case _ => []
  }

  ghost predicate Hidden(node: Node) { !node.shown }

  /** Shown, but neither to be looked at nor, for a folder, to be opened. */
  ghost predicate Unread(node: Node) { node.shown && (node.what.Unstatable? || node.what == Directory(Unopened)) }

  ghost function HowMany(nodes: seq<Node>, test: Node -> bool): nat {
    if nodes == [] then 0 else (if test(nodes[0]) then 1 else 0) + HowMany(nodes[1..], test)
  }

  lemma {:induction false} HowManyJoin(a: seq<Node>, b: seq<Node>, test: Node -> bool)
    ensures HowMany(a + b, test) == HowMany(a, test) + HowMany(b, test)
  {
    if a == [] {
      assert a + b == b;
    } else {
      assert (a + b)[1..] == a[1..] + b;
      HowManyJoin(a[1..], b, test);
    }
  }

  /** Counted as excluded are the entries met that are not shown, as unreadable those met that could not be read. */
  lemma {:induction false} WalkCounts(children: seq<Node>, taken: set<string>, dir: string)
    ensures Walk(children, taken, dir).excluded == HowMany(Met(children), Hidden)
    ensures Walk(children, taken, dir).unreadable == HowMany(Met(children), Unread)
    decreases children, 1
  {
    if children != [] {
      var name := ArchiveName(taken, children[0].readable);
      VisitCounts(children[0], dir + "/" + name);
      WalkCounts(children[1..], taken + {name}, dir);
      HowManyJoin(MetAt(children[0]), Met(children[1..]), Hidden);
      HowManyJoin(MetAt(children[0]), Met(children[1..]), Unread);
      hide Visit, MetAt, HowMany;
    }
  }

  lemma {:induction false} VisitCounts(node: Node, name: string)
    ensures Visit(node, name).excluded == HowMany(MetAt(node), Hidden)
    ensures Visit(node, name).unreadable == HowMany(MetAt(node), Unread)
    decreases node, 0
  {
    if node.shown && node.what.Directory? && node.what.listing.Children? {
      var nodes := node.what.listing.nodes;
      WalkCounts(nodes, {}, name);
      HowManyJoin([node], Met(nodes), Hidden);
      HowManyJoin([node], Met(nodes), Unread);
    }
  }

  ghost function MetIn(source: Source): seq<Node> {
    match source.kind case FolderSource(Children(nodes)) => Met(nodes) case _ => []
  }

  /** The same counts over the whole archive; a source that does not open is unreadable, and none of them is excluded. */
  lemma {:induction false} CollectCounts(sources: seq<Source>)
    ensures Collect(sources).excluded == HowManyIn(sources, Hidden, false)
    ensures Collect(sources).unreadable == HowManyIn(sources, Unread, true)
  {
    if sources != [] {
      CollectCounts(sources[1..]);
      if sources[0].kind.FolderSource? && sources[0].kind.listing.Children? {
        WalkCounts(sources[0].kind.listing.nodes, {}, sources[0].entryName);
      }
      hide Walk, Met, HowMany;
    }
  }

  /** How many of the entries met pass the test, and, if asked for, of the sources that do not open. */
  ghost function HowManyIn(sources: seq<Source>, test: Node -> bool, unopened: bool): nat {
    if sources == [] then 0
    else
      HowMany(MetIn(sources[0]), test)
      + (if unopened && sources[0].kind == FolderSource(Unopened) then 1 else 0)
      + HowManyIn(sources[1..], test, unopened)
  }

  /** A child whose name is nobody else's in its folder is listed under it, as it reads. */
  lemma {:induction false} OwnNamesAreKept(children: seq<Node>, taken: set<string>, dir: string, i: nat)
    requires i < |children| && forall j, k :: 0 <= j < k < |children| ==> children[j].readable != children[k].readable
    requires forall k :: 0 <= k < |children| ==> children[k].readable !in taken
    ensures var r, name := Visit(children[i], dir + "/" + children[i].readable), dir + "/" + children[i].readable;
            && (forall e :: e in r.entries ==> e in Walk(children, taken, dir).entries)
            && (children[i].shown && (children[i].what.Symlink? || children[i].what.File? || children[i].what.Directory?) ==>
                  exists kind :: Entry(name, kind) in Walk(children, taken, dir).entries)
    decreases i
  {
    var name := children[0].readable;
    assert ArchiveName(taken, name) == name;
    if i > 0 {
      assert forall k :: 0 <= k < |children[1..]| ==> children[1..][k] == children[k + 1];
      OwnNamesAreKept(children[1..], taken + {name}, dir, i - 1);
    } else if children[0].what.Directory? && children[0].shown {
      assert Entry(dir + "/" + name, IsDirectory) in Visit(children[0], dir + "/" + name).entries;
    } else if children[0].shown && (children[0].what.Symlink? || children[0].what.File?) {
      assert Visit(children[0], dir + "/" + name).entries[0].name == dir + "/" + name;
      assert Visit(children[0], dir + "/" + name).entries[0] in Visit(children[0], dir + "/" + name).entries;
    }
  }

  /** The same tree with everything inside what is not shown forgotten; the names beside it stay. */
  function Blind(children: seq<Node>): seq<Node>
    decreases children, 1
  {
    if children == [] then [] else [BlindNode(children[0])] + Blind(children[1..])
  }

  function BlindNode(node: Node): Node
    decreases node, 0
  {
    if !node.shown then node.(what := Other)
    else if node.what.Directory? && node.what.listing.Children?
    then node.(what := Directory(Children(Blind(node.what.listing.nodes))))
    else node
  }

  /** So of what the walk comes to in it, nothing that is not shown holds anything. */
  lemma {:induction false} BlindForgets(children: seq<Node>)
    ensures forall n :: n in Met(Blind(children)) && !n.shown ==> n.what == Other
    decreases children, 1
  {
    if children != [] {
      assert Blind(children)[0] == BlindNode(children[0]) && Blind(children)[1..] == Blind(children[1..]);
      BlindForgets(children[1..]);
      BlindNodeForgets(children[0]);
    }
  }

  lemma {:induction false} BlindNodeForgets(node: Node)
    ensures forall n :: n in MetAt(BlindNode(node)) && !n.shown ==> n.what == Other
    decreases node, 0
  {
    if node.shown && node.what.Directory? && node.what.listing.Children? { BlindForgets(node.what.listing.nodes); }
  }

  /** Nothing under an excluded entry leaves a trace: neither in the entries and their names, nor in any count. */
  lemma {:induction false} ExcludedLeavesNoTrace(children: seq<Node>, taken: set<string>, dir: string)
    ensures Walk(Blind(children), taken, dir) == Walk(children, taken, dir)
    decreases children, 1
  {
    if children != [] {
      var name := ArchiveName(taken, children[0].readable);
      assert Blind(children)[1..] == Blind(children[1..]);
      assert Blind(children)[0] == BlindNode(children[0]);
      ExcludedNodeLeavesNoTrace(children[0], dir + "/" + name);
      ExcludedLeavesNoTrace(children[1..], taken + {name}, dir);
    }
  }

  lemma {:induction false} ExcludedNodeLeavesNoTrace(node: Node, name: string)
    ensures BlindNode(node).readable == node.readable
    ensures Visit(BlindNode(node), name) == Visit(node, name)
    decreases node, 0
  {
    if node.shown && node.what.Directory? && node.what.listing.Children? {
      var nodes := node.what.listing.nodes;
      ExcludedLeavesNoTrace(nodes, {}, name);
      hide Walk, Blind;
      assert BlindNode(node).what == Directory(Children(Blind(nodes)));
      assert Open(Children(Blind(nodes)), name) == Open(Children(nodes), name);
    } else {
      hide Walk, Blind, Open;
    }
  }

  function BlindSources(sources: seq<Source>): seq<Source> {
    if sources == [] then []
    else
      (if sources[0].kind.FolderSource? && sources[0].kind.listing.Children?
       then [sources[0].(kind := FolderSource(Children(Blind(sources[0].kind.listing.nodes))))] else [sources[0]])
      + BlindSources(sources[1..])
  }

  /** Nor does it leave one anywhere in the archive. */
  lemma {:induction false} CollectExcludedLeavesNoTrace(sources: seq<Source>)
    ensures Collect(BlindSources(sources)) == Collect(sources)
    ensures |BlindSources(sources)| == |sources|
    ensures forall i, n :: 0 <= i < |sources| && n in MetIn(BlindSources(sources)[i]) && !n.shown ==> n.what == Other
  {
    if sources != [] {
      var blind := BlindSources(sources);
      if sources[0].kind.FolderSource? && sources[0].kind.listing.Children? { BlindForgets(sources[0].kind.listing.nodes); }
      assert blind[1..] == BlindSources(sources[1..]);
      CollectExcludedLeavesNoTrace(sources[1..]);
      if sources[0].kind.FolderSource? && sources[0].kind.listing.Children? {
        ExcludedLeavesNoTrace(sources[0].kind.listing.nodes, {}, sources[0].entryName);
      }
      hide Walk, Blind, BlindSources;
      assert CollectSource(blind[0]) == CollectSource(sources[0]);
    }
  }
}
