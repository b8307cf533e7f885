/**
 The walk as the server runs it: the entry list and the counts grow in place while the folders are read.
 Each method is proved to add exactly what `ArchiveTree` says.
 */
module ArchiveCollector {
  import opened Text
  import opened ArchiveTree

  /** The naming loop ends, because the attempts give different names and only so many are taken. */
  method ArchiveNameFor(takenHere: set<string>, readable: string) returns (name: string)
    ensures name == ArchiveName(takenHere, readable)
  {
    if readable !in takenHere { return readable; }
    var attempt := 1;
    while Suffixed(readable, attempt) in takenHere
      invariant attempt >= 1 && forall m :: 1 <= m < attempt ==> Suffixed(readable, m) in takenHere
      decreases |takenHere| + 1 - attempt
    {
      TriedFit(takenHere, readable, attempt + 1);
      attempt := attempt + 1;
    }
    return Suffixed(readable, attempt);
  }

  lemma PlusNothing(a: Collected)
    ensures Plus(a, Nothing) == a && Plus(Nothing, a) == a
  {
  }

  lemma PlusAssociative(a: Collected, b: Collected, c: Collected)
    ensures Plus(Plus(a, b), c) == Plus(a, Plus(b, c))
  {
  }

  class Collector {
    var entries: seq<Entry>
    var excluded: nat
    var unreadable: nat
    var totalBytes: nat

    ghost function View(): Collected
      reads this
    {
      Collected(entries, excluded, unreadable, totalBytes)
    }

    constructor ()
      ensures View() == Nothing
    {
      entries, excluded, unreadable, totalBytes := [], 0, 0, 0;
    }

    /** One child of a folder, under the name the folder gives it. */
    method Visit(node: Node, name: string)
      modifies this
      ensures View() == Plus(old(View()), ArchiveTree.Visit(node, name))
      decreases node, 0
    {
      if !node.shown {
        excluded := excluded + 1;
        return;
      }
      match node.what
      case Unstatable => unreadable := unreadable + 1;
      case Symlink => entries := entries + [Entry(name, IsSymlink)];
      case File(size) =>
        entries := entries + [Entry(name, IsFile(size))];
        totalBytes := totalBytes + size;
      case Directory(listing) =>
        entries := entries + [Entry(name, IsDirectory)];
        PlusAssociative(old(View()), Nothing.(entries := [Entry(name, IsDirectory)]), ArchiveTree.Open(listing, name));
        Open(listing, name);
      case Other =>
    }

    method Open(listing: Listing, dir: string)
      modifies this
      ensures View() == Plus(old(View()), ArchiveTree.Open(listing, dir))
      decreases listing
    {
      match listing
      case Unopened => unreadable := unreadable + 1;
      case Children(nodes) => Walk(nodes, dir);
    }

    method Walk(children: seq<Node>, dir: string)
      modifies this
      ensures View() == Plus(old(View()), ArchiveTree.Walk(children, {}, dir))
      decreases children, 1
    {
      var takenHere: set<string> := {};
      ghost var target := Plus(View(), ArchiveTree.Walk(children, takenHere, dir));
      var i := 0;
      assert children[0..] == children;
      while i < |children|
        invariant 0 <= i <= |children|
        invariant target == Plus(View(), ArchiveTree.Walk(children[i..], takenHere, dir))
      {
        ghost var before, rest := View(), children[i..];
        assert rest[0] == children[i] && rest[1..] == children[i + 1..];
        var name := ArchiveNameFor(takenHere, children[i].readable);
        PlusAssociative(before, ArchiveTree.Visit(children[i], dir + "/" + name),
                        ArchiveTree.Walk(children[i + 1..], takenHere + {name}, dir));
        Visit(children[i], dir + "/" + name);
        takenHere := takenHere + {name};
        i := i + 1;
      }
      PlusNothing(View());
    }

    /** Collecting the sources a caller resolved leaves what `Collect` lists, and so entries of distinct names. */
    method CollectAll(sources: seq<Source>)
      requires View() == Nothing
      modifies this
      ensures View() == Collect(sources)
    {
      var i := 0;
      assert sources[0..] == sources;
      PlusNothing(Collect(sources));
      while i < |sources|
        invariant 0 <= i <= |sources|
        invariant Collect(sources) == Plus(View(), Collect(sources[i..]))
      {
        ghost var before, rest := View(), sources[i..];
        assert rest[0] == sources[i] && rest[1..] == sources[i + 1..];
        PlusAssociative(before, CollectSource(sources[i]), Collect(sources[i + 1..]));
        match sources[i].kind {
          case FileSource(size) =>
            entries := entries + [Entry(sources[i].entryName, IsFile(size))];
            totalBytes := totalBytes + size;
          case FolderSource(listing) =>
            entries := entries + [Entry(sources[i].entryName, IsDirectory)];
            PlusAssociative(before, Nothing.(entries := [Entry(sources[i].entryName, IsDirectory)]),
                            ArchiveTree.Open(listing, sources[i].entryName));
            Open(listing, sources[i].entryName);
        }
        i := i + 1;
      }
      PlusNothing(View());
    }
  }

  // ----- The note about what could not be read

  const NOTICE := "UNREADABLE-ENTRIES.txt"

  ghost function NamesOf(entries: seq<Entry>): set<string> { set i | 0 <= i < |entries| :: entries[i].name }

  /** The note takes the first name of its own that nothing in the archive answers to; without a defect there is none. */
  method NoticeName(unreadable: nat, names: set<string>) returns (written: bool, name: string)
    ensures written <==> unreadable > 0
    ensures written ==> name == ArchiveName(names, NOTICE)
  {
    if unreadable == 0 { return false, ""; }
    name := NOTICE;
    var attempt := 1;
    SplitNotice();
    while name in names
      invariant attempt >= 1
      invariant name == if attempt == 1 then NOTICE else Suffixed(NOTICE, attempt - 1)
      invariant attempt > 1 ==> NOTICE in names && forall m :: 1 <= m < attempt - 1 ==> Suffixed(NOTICE, m) in names
      decreases |names| + 2 - attempt
    {
      if attempt > 1 { TriedFit(names, NOTICE, attempt); }
      name := "UNREADABLE-ENTRIES" + " (" + Decimal(attempt) + ").txt";
      assert name == Suffixed(NOTICE, attempt);
      attempt := attempt + 1;
    }
    return true, name;
  }

  lemma SplitNotice()
    ensures SplitArchiveName(NOTICE) == ("UNREADABLE-ENTRIES", ".txt")
  {
    assert NOTICE == "UNREADABLE-ENTRIES" + "." + "txt";
    SplitAtLastDot("UNREADABLE-ENTRIES", "txt");
  }

  /** An archive with its note still holds no two entries of one name. */
  lemma NoticeKeepsNamesDistinct(entries: seq<Entry>)
    requires DistinctNames(entries)
    ensures DistinctNames(entries + [Entry(ArchiveName(NamesOf(entries), NOTICE), IsFile(0))])
  {
    forall i | 0 <= i < |entries|
      ensures entries[i].name != ArchiveName(NamesOf(entries), NOTICE)
    {
      assert entries[i].name in NamesOf(entries);
    }
  }
}
