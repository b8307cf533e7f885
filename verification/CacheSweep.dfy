/** The sweep of the archive cache: what is too old goes, then the least recently used until the rest fits. */
module CacheSweep {
  import opened CacheNames

  datatype Stat = Stat(mtime: int, size: nat)
  datatype Entry = Entry(name: string, mtime: int, size: nat)

  function Total(entries: seq<Entry>): nat {
    if entries == [] then 0 else entries[0].size + Total(entries[1..])
  }

  predicate Expired(e: Entry, now: int, ttl: nat) { ttl > 0 && now - e.mtime > ttl }

  function Fresh(entries: seq<Entry>, now: int, ttl: nat): seq<Entry> {
    if entries == [] then [] else (if Expired(entries[0], now, ttl) then [] else [entries[0]]) + Fresh(entries[1..], now, ttl)
  }

  // ----- Least recently used first

  function Insert(e: Entry, sorted: seq<Entry>): seq<Entry> {
    if sorted == [] || e.mtime <= sorted[0].mtime then [e] + sorted else [sorted[0]] + Insert(e, sorted[1..])
  }

  /** A stable sort by the time of last use. */
  function ByAge(entries: seq<Entry>): seq<Entry> {
    if entries == [] then [] else Insert(entries[0], ByAge(entries[1..]))
  }

  ghost predicate OldestFirst(s: seq<Entry>) { forall i, j :: 0 <= i < j < |s| ==> s[i].mtime <= s[j].mtime }

  lemma {:induction false} InsertKeeps(e: Entry, sorted: seq<Entry>)
    ensures multiset(Insert(e, sorted)) == multiset{e} + multiset(sorted)
    ensures Total(Insert(e, sorted)) == e.size + Total(sorted)
  {
    if sorted != [] && e.mtime > sorted[0].mtime {
      InsertKeeps(e, sorted[1..]);
      assert sorted == [sorted[0]] + sorted[1..];
      assert ([sorted[0]] + Insert(e, sorted[1..]))[1..] == Insert(e, sorted[1..]);
    } else {
      assert ([e] + sorted)[1..] == sorted;
    }
  }

  lemma {:induction false} InsertSorts(e: Entry, sorted: seq<Entry>)
    requires OldestFirst(sorted)
    ensures OldestFirst(Insert(e, sorted))
  {
    if sorted != [] && e.mtime > sorted[0].mtime {
      InsertSorts(e, sorted[1..]);
      InsertKeeps(e, sorted[1..]);
      var rest := Insert(e, sorted[1..]);
      assert forall k :: 1 <= k < |sorted| ==> sorted[0].mtime <= sorted[k].mtime;
      hide Insert, OldestFirst;
      forall i | 0 <= i < |rest| ensures sorted[0].mtime <= rest[i].mtime {
        assert rest[i] in multiset(rest);
        if rest[i] != e { assert rest[i] in sorted[1..]; }
      }
    }
  }

  lemma {:induction false} ByAgeSorts(entries: seq<Entry>)
    ensures OldestFirst(ByAge(entries)) && multiset(ByAge(entries)) == multiset(entries)
    ensures Total(ByAge(entries)) == Total(entries)
  {
    if entries != [] {
      ByAgeSorts(entries[1..]);
      InsertSorts(entries[0], ByAge(entries[1..]));
      InsertKeeps(entries[0], ByAge(entries[1..]));
      assert entries == [entries[0]] + entries[1..];
    }
  }

  /** How many from the front have to go for the rest to fit. */
  function Excess(sorted: seq<Entry>, budget: nat): (k: nat)
    ensures k <= |sorted|
  {
    if Total(sorted) <= budget then 0 else 1 + Excess(sorted[1..], budget)
  }

  lemma {:induction false} ExcessIsLeast(sorted: seq<Entry>, budget: nat)
    ensures var k := Excess(sorted, budget);
            && Total(sorted[k..]) <= budget
            && (k > 0 ==> Total(sorted[k - 1..]) > budget)
  {
    if Total(sorted) > budget {
      ExcessIsLeast(sorted[1..], budget);
      var k := Excess(sorted[1..], budget);
      assert sorted[1..][k..] == sorted[k + 1..];
      if k > 0 { assert sorted[1..][k - 1..] == sorted[k..]; } else { assert sorted[0..] == sorted; }
    } else {
      assert sorted[0..] == sorted;
    }
  }

  function Evicted(entries: seq<Entry>, now: int, ttl: nat, budget: nat): seq<Entry> {
    var kept := ByAge(Fresh(entries, now, ttl));
    kept[..Excess(kept, budget)]
  }

  function Survivors(entries: seq<Entry>, now: int, ttl: nat, budget: nat): seq<Entry> {
    var kept := ByAge(Fresh(entries, now, ttl));
    kept[Excess(kept, budget)..]
  }

  lemma {:induction false} FreshExactly(entries: seq<Entry>, now: int, ttl: nat)
    ensures forall e :: multiset(Fresh(entries, now, ttl))[e] == if Expired(e, now, ttl) then 0 else multiset(entries)[e]
  {
    if entries != [] {
      FreshExactly(entries[1..], now, ttl);
      assert entries == [entries[0]] + entries[1..];
    }
  }

  lemma SweepFits(entries: seq<Entry>, now: int, ttl: nat, budget: nat)
    ensures var out, left := Evicted(entries, now, ttl, budget), Survivors(entries, now, ttl, budget);
            Total(left) <= budget && (out != [] ==> Total([out[|out| - 1]] + left) > budget)
  {
    var sorted := ByAge(Fresh(entries, now, ttl));
    var k := Excess(sorted, budget);
    ExcessIsLeast(sorted, budget);
    if k > 0 { assert [sorted[..k][k - 1]] + sorted[k..] == sorted[k - 1..]; }
  }

  lemma SweepSorts(entries: seq<Entry>, now: int, ttl: nat, budget: nat)
    ensures var out, left := Evicted(entries, now, ttl, budget), Survivors(entries, now, ttl, budget);
            && (forall gone, kept :: gone in out && kept in left ==> gone.mtime <= kept.mtime)
            && (forall e :: multiset(out)[e] + multiset(left)[e] == multiset(Fresh(entries, now, ttl))[e])
  {
    var kept := Fresh(entries, now, ttl);
    var sorted := ByAge(kept);
    ByAgeSorts(kept);
    CutSorted(sorted, Excess(sorted, budget));
    hide Fresh, ByAge, Excess;
    assert sorted == sorted[..Excess(sorted, budget)] + sorted[Excess(sorted, budget)..];
  }

  /** An entry is past its time when there is a time to keep it and that is over since its last use. */
  ghost predicate PastItsTime(e: Entry, now: int, ttl: nat) { ttl > 0 && e.mtime + ttl < now }

  /** A temporary no job holds is abandoned an hour after it was last written. */
  ghost predicate LeftBehind(name: string, stat: Stat, live: set<string>, now: int) {
    IsTemporary(name) && !(name in live) && stat.mtime + 3_600_000 <= now
  }

  /**
   What survives fits the budget and holds nothing past its time; what was evicted for space was used no
   more recently than anything that survives, and keeping even the last of it would not have fitted. Every
   entry is expired, evicted or surviving, and only one of the three.
   */
  lemma SweepIsRight(entries: seq<Entry>, now: int, ttl: nat, budget: nat)
    ensures var out, left := Evicted(entries, now, ttl, budget), Survivors(entries, now, ttl, budget);
            && Total(left) <= budget
            && (forall e :: e in left ==> !PastItsTime(e, now, ttl))
            && (forall gone, kept :: gone in out && kept in left ==> gone.mtime <= kept.mtime)
            && (out != [] ==> Total([out[|out| - 1]] + left) > budget)
            && (forall e :: multiset(out)[e] + multiset(left)[e] == if PastItsTime(e, now, ttl) then 0 else multiset(entries)[e])
  {
    SweepFits(entries, now, ttl, budget);
    SweepSorts(entries, now, ttl, budget);
    FreshExactly(entries, now, ttl);
    assert forall e :: PastItsTime(e, now, ttl) <==> Expired(e, now, ttl);
    hide Evicted, Survivors, Fresh, Expired, PastItsTime, Total;
    forall e | e in Survivors(entries, now, ttl, budget) ensures !Expired(e, now, ttl) {
      assert multiset(Survivors(entries, now, ttl, budget))[e] > 0;
    }
  }

  lemma CutSorted(sorted: seq<Entry>, k: nat)
    requires OldestFirst(sorted) && k <= |sorted|
    ensures forall a, b :: a in sorted[..k] && b in sorted[k..] ==> a.mtime <= b.mtime
  {
    forall a, b | a in sorted[..k] && b in sorted[k..] ensures a.mtime <= b.mtime {
      var i :| 0 <= i < k && sorted[i] == a;
      var j :| 0 <= j < |sorted[k..]| && sorted[k..][j] == b;
      assert sorted[k + j] == b;
    }
  }

  // ----- The directory

  function Names(entries: seq<Entry>): set<string> { set e | e in entries :: e.name }

  /** The entries the sweep weighs, in the order the directory lists them. */
  function Cached(names: seq<string>, files: map<string, Stat>): seq<Entry>
    requires forall n :: n in names ==> n in files
  {
    if names == [] then []
    else
      var n := names[0];
      (if IsCached(n) then [Entry(n, files[n].mtime, files[n].size)] else []) + Cached(names[1..], files)
  }

  const ABANDONED_AGE: int := 60 * 60 * 1000

  predicate Abandoned(name: string, stat: Stat, live: set<string>, now: int) {
    IsTemporary(name) && name !in live && now - stat.mtime >= ABANDONED_AGE
  }

  lemma {:induction false} CachedExactly(names: seq<string>, files: map<string, Stat>)
    requires forall n :: n in names ==> n in files
    ensures forall e :: e in Cached(names, files) <==> e.name in names && IsCached(e.name) && files[e.name] == Stat(e.mtime, e.size)
  {
    if names != [] {
      CachedExactly(names[1..], files);
      assert names == [names[0]] + names[1..];
      hide IsCached;
    }
  }

  ghost function EntryOf(name: string, files: map<string, Stat>): Entry
    requires name in files
  {
    Entry(name, files[name].mtime, files[name].size)
  }

  ghost predicate Distinct(names: seq<string>) { forall i, j :: 0 <= i < j < |names| ==> names[i] != names[j] }

  lemma {:induction false} CachedOnce(names: seq<string>, files: map<string, Stat>)
    requires Distinct(names) && forall n :: n in names ==> n in files
    ensures forall e :: multiset(Cached(names, files))[e] <= 1
  {
    if names != [] {
      CachedOnce(names[1..], files);
      CachedExactly(names[1..], files);
      assert names[0] !in names[1..];
      hide IsCached;
      var rest := Cached(names[1..], files);
      assert forall e :: e in multiset(rest) <==> e in rest;
    }
  }

  /** A cached copy is among the evicted or the survivors, never both, unless it is past its time. */
  lemma SurvivorsAreTheRest(names: seq<string>, files: map<string, Stat>, now: int, ttl: nat, budget: nat, n: string)
    requires Distinct(names) && (forall n :: n in names <==> n in files) && n in files && IsCached(n)
    ensures var cached := Cached(names, files);
            EntryOf(n, files) in Survivors(cached, now, ttl, budget) <==>
            !PastItsTime(EntryOf(n, files), now, ttl) && n !in Names(Evicted(cached, now, ttl, budget))
  {
    var cached, e := Cached(names, files), EntryOf(n, files);
    var out, left := Evicted(cached, now, ttl, budget), Survivors(cached, now, ttl, budget);
    CachedExactly(names, files);
    CachedOnce(names, files);
    assert e in cached && forall o :: o in cached && o.name == n ==> o == e;
    hide PastItsTime, Cached, Evicted, Survivors, Expired, IsCached, Distinct, Total;
    SweepIsRight(cached, now, ttl, budget);
    forall o | o in out ensures o in cached { assert multiset(out)[o] > 0 && o in multiset(cached); }
    NamedIn(cached, out, e);
    hide Names;
    assert e in multiset(cached) && (e in left <==> e in multiset(left)) && (e in out <==> e in multiset(out));
  }

  lemma NamedIn(cached: seq<Entry>, out: seq<Entry>, e: Entry)
    requires forall o :: o in cached && o.name == e.name ==> o == e
    requires forall o :: o in out ==> o in cached
    ensures e in out <==> e.name in Names(out)
  {
  }

  ghost function Old(entries: seq<Entry>, now: int, ttl: nat): seq<Entry> {
    if entries == [] then [] else (if Expired(entries[0], now, ttl) then [entries[0]] else []) + Old(entries[1..], now, ttl)
  }

  lemma {:induction false} OldExactly(entries: seq<Entry>, now: int, ttl: nat)
    ensures forall e :: e in Old(entries, now, ttl) <==> e in entries && PastItsTime(e, now, ttl)
  {
    if entries != [] {
      OldExactly(entries[1..], now, ttl);
      assert entries == [entries[0]] + entries[1..];
    }
  }

  lemma OneMoreWeighed(rest: seq<Entry>, now: int, ttl: nat)
    requires rest != []
    ensures Expired(rest[0], now, ttl) ==> Fresh(rest, now, ttl) == Fresh(rest[1..], now, ttl)
    ensures Expired(rest[0], now, ttl) ==> Old(rest, now, ttl) == [rest[0]] + Old(rest[1..], now, ttl)
    ensures !Expired(rest[0], now, ttl) ==> Fresh(rest, now, ttl) == [rest[0]] + Fresh(rest[1..], now, ttl)
    ensures !Expired(rest[0], now, ttl) ==> Old(rest, now, ttl) == Old(rest[1..], now, ttl)
  {
    hide Expired;
  }

  lemma NamesGrow(entries: seq<Entry>, e: Entry)
    ensures Names(entries + [e]) == Names(entries) + {e.name}
  {
  }

  lemma Regroup(a: seq<Entry>, b: seq<Entry>, c: seq<Entry>)
    ensures a + (b + c) == (a + b) + c
  {
  }

  class Directory {
    var files: map<string, Stat>

    constructor (initial: map<string, Stat>)
      ensures files == initial
    {
      files := initial;
    }

    method RemoveAbandoned(names: seq<string>, live: set<string>, now: int)
      requires forall n :: n in names <==> n in files
      modifies this
      ensures files == map n | n in old(files) && !LeftBehind(n, old(files)[n], live, now) :: old(files)[n]
    {
      assert forall n, stat :: LeftBehind(n, stat, live, now) <==> Abandoned(n, stat, live, now);
      for i := 0 to |names|
        invariant files == map n | n in old(files) && !(n in names[..i] && Abandoned(n, old(files)[n], live, now)) :: old(files)[n]
      {
        hide Abandoned, LeftBehind;
        var n := names[i];
        assert names[..i + 1] == names[..i] + [n];
        if n in files && Abandoned(n, files[n], live, now) { files := files - {n}; }
      }
      assert names[..|names|] == names;
    }

    /** What is past its time goes; what is not is handed on, in the order it was listed. */
    method RemoveExpired(cached: seq<Entry>, now: int, ttl: nat) returns (kept: seq<Entry>, ghost gone: seq<Entry>)
      modifies this
      ensures kept == Fresh(cached, now, ttl)
      ensures forall e :: e in gone <==> e in cached && PastItsTime(e, now, ttl)
      ensures files == old(files) - Names(gone)
    {
      kept, gone := [], [];
      var rest := cached;
      while rest != []
        invariant kept + Fresh(rest, now, ttl) == Fresh(cached, now, ttl)
        invariant gone + Old(rest, now, ttl) == Old(cached, now, ttl)
        invariant files == old(files) - Names(gone)
        decreases |rest|
      {
        hide Expired, PastItsTime, Fresh, Old, Names;
        var e := rest[0];
        OneMoreWeighed(rest, now, ttl);
        if Expired(e, now, ttl) {
          files := files - {e.name};
          NamesGrow(gone, e);
          Regroup(gone, [e], Old(rest[1..], now, ttl));
          gone := gone + [e];
        } else {
          Regroup(kept, [e], Fresh(rest[1..], now, ttl));
          kept := kept + [e];
        }
        rest := rest[1..];
      }
      hide PastItsTime, Expired;
      OldExactly(cached, now, ttl);
    }

    /** Least recently used first, until the rest fits. */
    method RemoveExcess(kept: seq<Entry>, budget: nat)
      modifies this
      ensures files == old(files) - Names(kept[..Excess(kept, budget)])
    {
      var total, k := Total(kept), 0;
      while k < |kept| && total > budget
        invariant 0 <= k <= |kept| && total == Total(kept[k..])
        invariant k + Excess(kept[k..], budget) == Excess(kept, budget)
        invariant files == old(files) - Names(kept[..k])
      {
        assert kept[k..][1..] == kept[k + 1..];
        assert kept[..k + 1] == kept[..k] + [kept[k]];
        assert Names(kept[..k + 1]) == Names(kept[..k]) + {kept[k].name};
        files := files - {kept[k].name};
        total := total - kept[k].size;
        k := k + 1;
      }
    }

    /**
     One sweep, every removal succeeding and nobody else writing: abandoned temporaries go, then the expired
     copies, then the excess. Nothing whose name is not the cache's own is touched.
     */
    method Sweep(names: seq<string>, live: set<string>, now: int, ttl: nat, budget: nat)
      requires Distinct(names) && forall n :: n in names <==> n in files
      modifies this
      ensures files.Keys <= old(files).Keys && forall n :: n in files ==> files[n] == old(files)[n]
      ensures forall n :: n in old(files) ==>
                (n !in files <==>
                   || LeftBehind(n, old(files)[n], live, now)
                   || n in Names(Evicted(Cached(names, old(files)), now, ttl, budget))
                   || (IsCached(n) && PastItsTime(EntryOf(n, old(files)), now, ttl)))
      ensures forall n :: n in old(files) && IsCached(n) ==>
                (n in files <==> EntryOf(n, old(files)) in Survivors(Cached(names, old(files)), now, ttl, budget))
      ensures forall n :: n in old(files) && !IsCached(n) && !IsTemporary(n) ==> n in files
      ensures forall n :: n in old(files) && n in live && !IsCached(n) ==> n in files
    {
      ghost var before := files;
      var cached := Cached(names, files);
      RemoveAbandoned(names, live, now);
      var kept;
      ghost var gone;
      kept, gone := RemoveExpired(cached, now, ttl);
      RemoveExcess(ByAge(kept), budget);
      OnlyOwnNames(names, before, now, ttl, budget, gone);
      assert forall n :: n in before && LeftBehind(n, before[n], live, now) ==> IsTemporary(n) && n !in live;
      forall n | n in before && IsCached(n)
        ensures EntryOf(n, before) in Survivors(cached, now, ttl, budget) <==>
                !PastItsTime(EntryOf(n, before), now, ttl) && n !in Names(Evicted(cached, now, ttl, budget))
      {
        SurvivorsAreTheRest(names, before, now, ttl, budget, n);
      }
      hide Names, Cached, Expired, PastItsTime, LeftBehind, ByAge, Excess, Fresh, Abandoned, IsCached, IsTemporary, Survivors, Distinct;
    }
  }

  /** What expires and what is evicted are cached copies that were listed. */
  lemma OnlyOwnNames(names: seq<string>, files: map<string, Stat>, now: int, ttl: nat, budget: nat, expired: seq<Entry>)
    requires forall n :: n in names <==> n in files
    requires forall e :: e in expired <==> e in Cached(names, files) && PastItsTime(e, now, ttl)
    ensures forall n :: n in Names(Evicted(Cached(names, files), now, ttl, budget)) ==> n in files && IsCached(n)
    ensures forall n :: n in Names(expired) <==>
              n in files && IsCached(n) && PastItsTime(EntryOf(n, files), now, ttl)
    ensures forall n :: IsCached(n) ==> !IsTemporary(n)
  {
    var cached := Cached(names, files);
    CachedExactly(names, files);
    SweepIsRight(cached, now, ttl, budget);
    hide IsTemporary, IsCached, PastItsTime, Evicted, Survivors, Cached;
    forall e | e in Evicted(cached, now, ttl, budget) ensures e in cached {
      assert multiset(cached)[e] > 0;
    }
    forall n | n in files && IsCached(n) && PastItsTime(EntryOf(n, files), now, ttl)
      ensures n in Names(expired)
    {
      assert EntryOf(n, files) in expired;
    }
    forall n | IsCached(n) ensures !IsTemporary(n) { CachedIsNotTemporary(n); }
  }
}
