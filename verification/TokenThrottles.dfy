/**
 The two in-memory throttles, of the uses written to a row and of the refusals reported in the log. A
 JavaScript Map keeps its keys in the order they were first set, and setting a key that is there does not
 move it, so the map is a sequence of distinct keys here.
 */
module TokenThrottles {
  import opened Common

  datatype Stamp = Stamp(key: string, at: int)
  type Stamps = seq<Stamp>

  const REPORT_INTERVAL: int := 60 * 60 * 1000
  const USE_INTERVAL: int := 60 * 1000
  const MAX_TRACKED: nat := 500

  function Get(m: Stamps, key: string): Option<int> {
    if m == [] then None else if m[0].key == key then Some(m[0].at) else Get(m[1..], key)
  }

  /** Sets in place where the key stands, or at the end. */
  function Set(m: Stamps, key: string, at: int): Stamps {
    if m == [] then [Stamp(key, at)]
    else if m[0].key == key then [Stamp(key, at)] + m[1..]
    else [m[0]] + Set(m[1..], key, at)
  }

  /** What is left once every stamp an interval old is deleted. */
  function Recent(m: Stamps, now: int): Stamps {
    if m == [] then [] else (if now - m[0].at >= REPORT_INTERVAL then [] else [m[0]]) + Recent(m[1..], now)
  }

  /** A stamp counts unless it is the number zero, which JavaScript takes for none. */
  predicate Throttled(m: Stamps, key: string, now: int, interval: int) {
    Get(m, key).Some? && Get(m, key).value != 0 && now - Get(m, key).value < interval
  }

  /** The map with room made, if it is full: first the old stamps go, and if that is not enough the first key. */
  function MakeRoom(m: Stamps, now: int): Stamps {
    if |m| < MAX_TRACKED then m
    else if |Recent(m, now)| < MAX_TRACKED then Recent(m, now)
    else Recent(m, now)[1..]
  }

  /** The key that is pushed out although its stamp is recent. */
  function PushedOut(m: Stamps, now: int): Option<string> {
    if |m| >= MAX_TRACKED && |Recent(m, now)| >= MAX_TRACKED then Some(Recent(m, now)[0].key) else None
  }

  predicate Reports(m: Stamps, key: string, now: int) { key != "" && !Throttled(m, key, now, REPORT_INTERVAL) }

  function AfterRefusal(m: Stamps, key: string, now: int): Stamps {
    if Reports(m, key, now) then Set(MakeRoom(m, now), key, now) else m
  }

  ghost predicate Keys(m: Stamps) { forall i, j :: 0 <= i < j < |m| ==> m[i].key != m[j].key }

  // ----- The map operations

  lemma {:induction false} GetIsSomewhere(m: Stamps, key: string)
    ensures Get(m, key).Some? ==> Stamp(key, Get(m, key).value) in m
    ensures Get(m, key).None? ==> forall i :: 0 <= i < |m| ==> m[i].key != key
  {
    if m != [] {
      GetIsSomewhere(m[1..], key);
      assert m == [m[0]] + m[1..];
    }
  }

  lemma {:induction false} SetGets(m: Stamps, key: string, at: int)
    ensures forall k :: Get(Set(m, key, at), k) == if k == key then Some(at) else Get(m, k)
    ensures |Set(m, key, at)| == |m| + (if Get(m, key).None? then 1 else 0)
    ensures forall s :: s in Set(m, key, at) ==> s.key == key || s in m
  {
    if m != [] && m[0].key != key {
      SetGets(m[1..], key, at);
      assert m == [m[0]] + m[1..];
    }
  }

  lemma {:induction false} SetKeepsKeys(m: Stamps, key: string, at: int)
    requires Keys(m)
    ensures Keys(Set(m, key, at))
  {
    if m != [] && m[0].key != key {
      SetKeepsKeys(m[1..], key, at);
      SetGets(m[1..], key, at);
      var rest := Set(m[1..], key, at);
      forall i | 0 <= i < |rest| ensures rest[i].key != m[0].key {
        assert rest[i] in rest;
      }
    }
  }

  lemma {:induction false} RecentKeeps(m: Stamps, now: int)
    requires Keys(m)
    ensures Keys(Recent(m, now)) && |Recent(m, now)| <= |m|
    ensures forall s :: s in Recent(m, now) <==> s in m && now - s.at < REPORT_INTERVAL
  {
    if m != [] {
      RecentKeeps(m[1..], now);
      assert m == [m[0]] + m[1..];
      var rest := Recent(m[1..], now);
      forall i | 0 <= i < |rest| ensures rest[i].key != m[0].key {
        assert rest[i] in m[1..];
      }
    }
  }

  lemma {:induction false} GetFinds(m: Stamps, s: Stamp)
    requires Keys(m) && s in m
    ensures Get(m, s.key) == Some(s.at)
  {
    if m[0] != s {
      assert s in m[1..];
      GetFinds(m[1..], s);
    }
  }

  lemma TailIsAmong(m: Stamps)
    requires m != []
    ensures forall s :: s in m[1..] ==> s in m
    ensures forall s :: s in m ==> s == m[0] || s in m[1..]
  {
    assert m == [m[0]] + m[1..];
  }

  // ----- One refusal

  lemma RoomMade(m: Stamps, now: int)
    requires Keys(m) && |m| <= MAX_TRACKED
    ensures Keys(MakeRoom(m, now)) && |MakeRoom(m, now)| < MAX_TRACKED
    ensures forall s :: s in m && now - s.at < REPORT_INTERVAL && PushedOut(m, now) != Some(s.key) ==> s in MakeRoom(m, now)
  {
    RecentKeeps(m, now);
    var r := Recent(m, now);
    hide Recent;
    if r != [] { TailIsAmong(r); }
  }

  /** The tracker stays a map of at most five hundred ids. */
  lemma RefusalKeepsBound(m: Stamps, key: string, now: int)
    requires Keys(m) && |m| <= MAX_TRACKED
    ensures Keys(AfterRefusal(m, key, now)) && |AfterRefusal(m, key, now)| <= MAX_TRACKED
  {
    RoomMade(m, now);
    SetKeepsKeys(MakeRoom(m, now), key, now);
    SetGets(MakeRoom(m, now), key, now);
    hide MakeRoom, Set;
  }

  /** An id is pushed out only when five hundred ids, every one stamped within the hour, are held, itself among them. */
  lemma PushedOutOnlyWhenFull(m: Stamps, now: int)
    requires Keys(m) && |m| <= MAX_TRACKED && PushedOut(m, now).Some?
    ensures |m| == 500 && forall s :: s in m ==> now - s.at < 3_600_000
    ensures m[0].key == PushedOut(m, now).value
  {
    RecentKeeps(m, now);
    AllRecent(m, now);
  }

  lemma {:induction false} AllRecent(m: Stamps, now: int)
    requires Keys(m)
    ensures |Recent(m, now)| == |m| ==> Recent(m, now) == m
  {
    if m != [] {
      AllRecent(m[1..], now);
      RecentKeeps(m[1..], now);
      assert m == [m[0]] + m[1..];
    }
  }

  /** `key` has a stamp, no older than `since`. */
  ghost predicate StampedSince(m: Stamps, key: string, since: int) { Get(m, key).Some? && Get(m, key).value >= since }

  lemma StampStays(m: Stamps, other: string, now: int, key: string, since: int)
    requires Keys(m) && |m| <= MAX_TRACKED && StampedSince(m, key, since)
    requires since <= now && now - since < REPORT_INTERVAL
    requires Reports(m, other, now) ==> PushedOut(m, now) != Some(key)
    ensures StampedSince(AfterRefusal(m, other, now), key, since)
  {
    if Reports(m, other, now) {
      GetIsSomewhere(m, key);
      var s := Stamp(key, Get(m, key).value);
      RoomMade(m, now);
      GetFinds(MakeRoom(m, now), s);
      SetGets(MakeRoom(m, now), other, now);
    }
  }

  // ----- Runs

  datatype Refusal = Refusal(tokenId: string, now: int)

  /** Refusals in the order they come; the clock never goes back and is past the epoch. */
  ghost predicate IsRun(calls: seq<Refusal>, states: seq<Stamps>) {
    && |states| == |calls| + 1 && states[0] == []
    && (forall i :: 0 <= i < |calls| ==> calls[i].now > 0 && states[i + 1] == AfterRefusal(states[i], calls[i].tokenId, calls[i].now))
    && (forall i, j :: 0 <= i <= j < |calls| ==> calls[i].now <= calls[j].now)
  }

  lemma {:induction false} RunKeepsBound(calls: seq<Refusal>, states: seq<Stamps>, k: nat)
    requires IsRun(calls, states) && k <= |calls|
    ensures Keys(states[k]) && |states[k]| <= MAX_TRACKED == 500
  {
    if k > 0 {
      RunKeepsBound(calls, states, k - 1);
      hide AfterRefusal, Keys;
      RefusalKeepsBound(states[k - 1], calls[k - 1].tokenId, calls[k - 1].now);
    }
  }

  lemma {:induction false} StampHolds(calls: seq<Refusal>, states: seq<Stamps>, i: nat, k: nat)
    requires IsRun(calls, states) && i < k < |calls|
    requires Reports(states[i], calls[i].tokenId, calls[i].now)
    requires calls[k].now - calls[i].now < REPORT_INTERVAL
    requires forall j :: i < j < k && Reports(states[j], calls[j].tokenId, calls[j].now) ==>
               PushedOut(states[j], calls[j].now) != Some(calls[i].tokenId)
    ensures StampedSince(states[k], calls[i].tokenId, calls[i].now)
  {
    if k == i + 1 {
      SetGets(MakeRoom(states[i], calls[i].now), calls[i].tokenId, calls[i].now);
    } else {
      assert calls[k - 1].now <= calls[k].now;
      StampHolds(calls, states, i, k - 1);
      RunKeepsBound(calls, states, k - 1);
      hide Reports, PushedOut, AfterRefusal, Keys, StampedSince;
      StampStays(states[k - 1], calls[k - 1].tokenId, calls[k - 1].now, calls[i].tokenId, calls[i].now);
    }
  }

  /** Two reports of one id are an hour apart, unless in between the id was pushed out. */
  lemma ReportsAnHourApart(calls: seq<Refusal>, states: seq<Stamps>, i: nat, k: nat)
    requires IsRun(calls, states) && i < k < |calls| && calls[i].tokenId == calls[k].tokenId
    requires Reports(states[i], calls[i].tokenId, calls[i].now)
    requires Reports(states[k], calls[k].tokenId, calls[k].now)
    ensures || calls[k].now - calls[i].now >= 3_600_000
            || exists j :: i < j < k && Reports(states[j], calls[j].tokenId, calls[j].now)
                           && PushedOut(states[j], calls[j].now) == Some(calls[i].tokenId)
  {
    if calls[k].now - calls[i].now < REPORT_INTERVAL
       && forall j :: i < j < k && Reports(states[j], calls[j].tokenId, calls[j].now) ==>
            PushedOut(states[j], calls[j].now) != Some(calls[i].tokenId) {
      StampHolds(calls, states, i, k);
      assert false;
    }
  }

  // ----- The order of the map over a run

  /** The call at `j` is a report of `key`. */
  ghost predicate Reported(calls: seq<Refusal>, states: seq<Stamps>, j: int, key: string)
    requires |states| == |calls| + 1
  {
    0 <= j < |calls| && calls[j].tokenId == key && Reports(states[j], key, calls[j].now)
  }

  /** What a call starts from once it has made room, or leaves alone. */
  function Kept(m: Stamps, call: Refusal): Stamps { if Reports(m, call.tokenId, call.now) then MakeRoom(m, call.now) else m }

  /** The call from which on an id that is held at `k` has been held all along. */
  ghost function Since(calls: seq<Refusal>, states: seq<Stamps>, k: nat, key: string): nat
    requires |states| == |calls| + 1 && k <= |calls|
  {
    if k == 0 then 0
    else if Get(Kept(states[k - 1], calls[k - 1]), key).Some? then Since(calls, states, k - 1, key)
    else k - 1
  }

  /** The last report of an id before `k`. */
  ghost function Last(calls: seq<Refusal>, states: seq<Stamps>, k: nat, key: string): nat
    requires |states| == |calls| + 1 && k <= |calls|
  {
    if k == 0 then 0
    else if Reported(calls, states, k - 1, key) then k - 1
    else Last(calls, states, k - 1, key)
  }

  /** Reported although it is held, which is an hour on at least, and keeping its place, for there is room. */
  ghost predicate ReportedAgain(calls: seq<Refusal>, states: seq<Stamps>, j: int, key: string)
    requires |states| == |calls| + 1
  {
    Reported(calls, states, j, key) && Get(states[j], key).Some? && |states[j]| < MAX_TRACKED
  }

  ghost predicate InOrder(m: Stamps, f: string -> nat) {
    forall i, j :: 0 <= i < j < |m| ==> f(m[i].key) < f(m[j].key)
  }

  lemma {:induction false} RecentInOrder(m: Stamps, now: int, f: string -> nat)
    requires InOrder(m, f) && Keys(m)
    ensures InOrder(Recent(m, now), f)
  {
    if m != [] {
      RecentInOrder(m[1..], now, f);
      RecentKeeps(m[1..], now);
      var rest := Recent(m[1..], now);
      forall i | 0 <= i < |rest| ensures f(m[0].key) < f(rest[i].key) {
        assert rest[i] in m[1..];
        var j :| 0 <= j < |m[1..]| && m[1..][j] == rest[i];
        assert m[j + 1] == rest[i];
      }
    }
  }

  lemma KeptKeeps(m: Stamps, call: Refusal)
    requires Keys(m) && |m| <= MAX_TRACKED
    ensures Keys(Kept(m, call)) && forall s :: s in Kept(m, call) ==> s in m
  {
    RecentKeeps(m, call.now);
    RoomMade(m, call.now);
    var r := Recent(m, call.now);
    hide Recent;
    if r != [] { TailIsAmong(r); }
  }

  lemma KeptInOrder(m: Stamps, call: Refusal, f: string -> nat)
    requires InOrder(m, f) && Keys(m) && |m| <= MAX_TRACKED
    ensures InOrder(Kept(m, call), f)
  {
    RecentInOrder(m, call.now, f);
    hide Recent;
  }

  /** Setting a key leaves every key where it is, and puts a new one at the end. */
  lemma {:induction false} SetKeepsPlaces(m: Stamps, key: string, at: int)
    ensures Get(m, key).None? ==> Set(m, key, at) == m + [Stamp(key, at)]
    ensures Get(m, key).Some? ==> |Set(m, key, at)| == |m| && forall i :: 0 <= i < |m| ==> Set(m, key, at)[i].key == m[i].key
  {
    if m != [] && m[0].key != key {
      SetKeepsPlaces(m[1..], key, at);
      assert m == [m[0]] + m[1..];
    }
  }

  lemma SetInOrder(m: Stamps, key: string, at: int, f: string -> nat)
    requires InOrder(m, f)
    requires Get(m, key).None? ==> forall i :: 0 <= i < |m| ==> f(m[i].key) < f(key)
    ensures InOrder(Set(m, key, at), f)
  {
    SetKeepsPlaces(m, key, at);
    hide Set;
  }

  lemma SameOrder(m: Stamps, f: string -> nat, g: string -> nat)
    requires InOrder(m, f) && forall i :: 0 <= i < |m| ==> g(m[i].key) == f(m[i].key)
    ensures InOrder(m, g)
  {
  }

  ghost function SinceAt(calls: seq<Refusal>, states: seq<Stamps>, k: nat): string -> nat
    requires |states| == |calls| + 1 && k <= |calls|
  {
    key => Since(calls, states, k, key)
  }

  lemma {:induction false} SinceIsBefore(calls: seq<Refusal>, states: seq<Stamps>, k: nat, key: string)
    requires |states| == |calls| + 1 && k <= |calls|
    ensures Since(calls, states, k, key) < k || k == 0
    decreases k
  {
    if k > 0 { SinceIsBefore(calls, states, k - 1, key); }
  }

  lemma StepOfRun(calls: seq<Refusal>, states: seq<Stamps>, k: nat)
    requires IsRun(calls, states) && 0 < k <= |calls|
    ensures var m, call := states[k - 1], calls[k - 1];
            && Keys(m) && |m| <= MAX_TRACKED && call.now > 0
            && states[k] == if Reports(m, call.tokenId, call.now) then Set(Kept(m, call), call.tokenId, call.now) else Kept(m, call)
  {
    RunKeepsBound(calls, states, k - 1);
    hide Reports, Set, MakeRoom, Keys;
    assert states[k - 1 + 1] == AfterRefusal(states[k - 1], calls[k - 1].tokenId, calls[k - 1].now);
  }

  lemma KeptSince(calls: seq<Refusal>, states: seq<Stamps>, k: nat, s: Stamp)
    requires |states| == |calls| + 1 && 0 < k <= |calls|
    requires s in states[k - 1] && Keys(Kept(states[k - 1], calls[k - 1])) && s in Kept(states[k - 1], calls[k - 1])
    ensures Since(calls, states, k, s.key) == Since(calls, states, k - 1, s.key)
    ensures k > 1 ==> Since(calls, states, k, s.key) < k - 1
  {
    GetFinds(Kept(states[k - 1], calls[k - 1]), s);
    hide Kept;
    SinceIsBefore(calls, states, k - 1, s.key);
  }

  lemma NewIsLast(calls: seq<Refusal>, states: seq<Stamps>, k: nat)
    requires |states| == |calls| + 1 && 0 < k <= |calls|
    requires Get(Kept(states[k - 1], calls[k - 1]), calls[k - 1].tokenId).None?
    ensures Since(calls, states, k, calls[k - 1].tokenId) == k - 1
  {
    hide Kept;
  }

  lemma KeptAllSince(calls: seq<Refusal>, states: seq<Stamps>, k: nat)
    requires |states| == |calls| + 1 && 0 < k <= |calls| && Keys(states[k - 1]) && |states[k - 1]| <= MAX_TRACKED
    requires k == 1 ==> states[k - 1] == []
    ensures var kept, f, g := Kept(states[k - 1], calls[k - 1]), SinceAt(calls, states, k - 1), SinceAt(calls, states, k);
            forall i :: 0 <= i < |kept| ==> g(kept[i].key) == f(kept[i].key) < k - 1
  {
    var m, kept := states[k - 1], Kept(states[k - 1], calls[k - 1]);
    KeptKeeps(m, calls[k - 1]);
    hide Kept, Since, Keys;
    forall i | 0 <= i < |kept|
      ensures Since(calls, states, k, kept[i].key) == Since(calls, states, k - 1, kept[i].key) < k - 1
    {
      assert kept[i] in kept && kept[i] in m;
      KeptSince(calls, states, k, kept[i]);
    }
  }

  /** Over a run the map holds its ids in the order in which they came to be held. */
  lemma {:induction false} HeldInOrder(calls: seq<Refusal>, states: seq<Stamps>, k: nat)
    requires IsRun(calls, states) && k <= |calls|
    ensures InOrder(states[k], SinceAt(calls, states, k))
  {
    if k > 0 {
      HeldInOrder(calls, states, k - 1);
      StepOfRun(calls, states, k);
      assert states[0] == [];
      KeptAllSince(calls, states, k);
      StepInOrder(calls, states, k);
    }
  }

  lemma StepInOrder(calls: seq<Refusal>, states: seq<Stamps>, k: nat)
    requires |states| == |calls| + 1 && 0 < k <= |calls| && Keys(states[k - 1]) && |states[k - 1]| <= MAX_TRACKED
    requires var m, call := states[k - 1], calls[k - 1];
             states[k] == if Reports(m, call.tokenId, call.now) then Set(Kept(m, call), call.tokenId, call.now) else Kept(m, call)
    requires var kept, f, g := Kept(states[k - 1], calls[k - 1]), SinceAt(calls, states, k - 1), SinceAt(calls, states, k);
             forall i :: 0 <= i < |kept| ==> g(kept[i].key) == f(kept[i].key) < k - 1
    requires InOrder(states[k - 1], SinceAt(calls, states, k - 1))
    ensures InOrder(states[k], SinceAt(calls, states, k))
  {
    var m, call := states[k - 1], calls[k - 1];
    var kept, g := Kept(m, call), SinceAt(calls, states, k);
    hide InOrder, Kept, Set, Reports, Since, Keys, Get;
    KeptInOrder(m, call, SinceAt(calls, states, k - 1));
    SameOrder(kept, SinceAt(calls, states, k - 1), g);
    if Reports(m, call.tokenId, call.now) {
      if Get(kept, call.tokenId).None? { NewIsLast(calls, states, k); }
      SetInOrder(kept, call.tokenId, call.now, g);
    }
  }

  /** An id that is held came in with a report, and has been held ever since. */
  lemma {:induction false} HeldSince(calls: seq<Refusal>, states: seq<Stamps>, k: nat, key: string)
    requires IsRun(calls, states) && k <= |calls| && Get(states[k], key).Some?
    ensures var i := Since(calls, states, k, key);
            && i < k && Reported(calls, states, i, key) && Get(Kept(states[i], calls[i]), key).None?
            && forall l :: i < l <= k ==> Get(states[l], key).Some?
    decreases k
  {
    if k > 0 {
      var m, call := states[k - 1], calls[k - 1];
      StepOfRun(calls, states, k);
      KeptKeeps(m, call);
      SetGets(Kept(m, call), call.tokenId, call.now);
      if Get(Kept(m, call), key).Some? {
        GetIsSomewhere(Kept(m, call), key);
        GetFinds(m, Stamp(key, Get(Kept(m, call), key).value));
        HeldSince(calls, states, k - 1, key);
      }
    }
  }

  lemma {:induction false} LastIsLatest(calls: seq<Refusal>, states: seq<Stamps>, k: nat, key: string, l: nat)
    requires |states| == |calls| + 1 && l < k <= |calls| && Reported(calls, states, l, key)
    ensures l <= Last(calls, states, k, key) < k
    decreases k
  {
    if !Reported(calls, states, k - 1, key) { LastIsLatest(calls, states, k - 1, key, l); }
  }

  /** Whoever reports has no stamp of the last hour. */
  lemma StampIsFresh(m: Stamps, call: Refusal, s: Stamp)
    requires Get(m, call.tokenId) == Some(s.at) && s.at > 0 && call.now - s.at < REPORT_INTERVAL
    ensures !Reports(m, call.tokenId, call.now)
  {
  }

  /** Making room in a full map leaves recent stamps only. */
  lemma FullKeepsRecent(m: Stamps, now: int)
    requires Keys(m) && |m| >= MAX_TRACKED
    ensures forall s :: s in MakeRoom(m, now) ==> s in m && now - s.at < REPORT_INTERVAL
  {
    RecentKeeps(m, now);
    var r := Recent(m, now);
    hide Recent, Keys;
    if r != [] { TailIsAmong(r); }
  }

  /** A report that keeps an id in its place is one made although the id is held, with room for more. */
  lemma {:induction false} KeptThoughReported(m: Stamps, call: Refusal)
    requires Keys(m) && |m| <= MAX_TRACKED && Reports(m, call.tokenId, call.now) && Get(Kept(m, call), call.tokenId).Some?
    requires forall s :: s in m ==> s.at > 0
    ensures Get(m, call.tokenId).Some? && |m| < MAX_TRACKED
  {
    var kept := MakeRoom(m, call.now);
    GetIsSomewhere(kept, call.tokenId);
    var s := Stamp(call.tokenId, Get(kept, call.tokenId).value);
    if |m| >= MAX_TRACKED {
      FullKeepsRecent(m, call.now);
      hide Get, Reports, MakeRoom, Keys;
      GetFinds(m, s);
      StampIsFresh(m, call, s);
    }
  }

  /** What a stamp says: when its id was last reported, and whether that was after it came to be held. */
  ghost predicate StampTells(calls: seq<Refusal>, states: seq<Stamps>, k: nat, s: Stamp)
    requires |states| == |calls| + 1 && k <= |calls|
  {
    var last := Last(calls, states, k, s.key);
    && Since(calls, states, k, s.key) <= last < k && Reported(calls, states, last, s.key)
    && s.at == calls[last].now && s.at > 0
    && (Since(calls, states, k, s.key) < last ==> ReportedAgain(calls, states, last, s.key))
  }

  ghost predicate AllTell(calls: seq<Refusal>, states: seq<Stamps>, k: nat)
    requires |states| == |calls| + 1 && k <= |calls|
  {
    forall s :: s in states[k] ==> StampTells(calls, states, k, s)
  }

  lemma {:induction false} StampsTell(calls: seq<Refusal>, states: seq<Stamps>, k: nat)
    requires IsRun(calls, states) && k <= |calls|
    ensures |states| == |calls| + 1 && AllTell(calls, states, k)
  {
    hide IsRun, AfterRefusal, Reports, Kept, Set, Keys, StampTells, MakeRoom;
    RunBegins(calls, states);
    if k > 0 {
      hide AllTell;
      StampsTell(calls, states, k - 1);
      StepOfRun(calls, states, k);
      AllTellNext(calls, states, k);
    }
  }

  lemma RunBegins(calls: seq<Refusal>, states: seq<Stamps>)
    requires IsRun(calls, states)
    ensures |states| == |calls| + 1 && states[0] == []
  {
    hide AfterRefusal;
  }

  lemma AllTellNext(calls: seq<Refusal>, states: seq<Stamps>, k: nat)
    requires |states| == |calls| + 1 && 0 < k <= |calls|
    requires Keys(states[k - 1]) && |states[k - 1]| <= MAX_TRACKED && calls[k - 1].now > 0 && AllTell(calls, states, k - 1)
    requires var m, call := states[k - 1], calls[k - 1];
             states[k] == if Reports(m, call.tokenId, call.now) then Set(Kept(m, call), call.tokenId, call.now) else Kept(m, call)
    ensures AllTell(calls, states, k)
  {
    var m, call := states[k - 1], calls[k - 1];
    KeptKeeps(m, call);
    SetGets(Kept(m, call), call.tokenId, call.now);
    SetKeepsKeys(Kept(m, call), call.tokenId, call.now);
    assert forall r :: r in m ==> r.at > 0;
    hide Set, Kept, Keys, Reports, Get, StampTells;
    forall s | s in states[k] ensures StampTells(calls, states, k, s) {
      GetFinds(states[k], s);
      if Reports(m, call.tokenId, call.now) && s.key == call.tokenId {
        NewStampTells(calls, states, k, s);
      } else {
        OldStampTells(calls, states, k, s);
      }
    }
  }

  /** The stamp a report sets. */
  lemma NewStampTells(calls: seq<Refusal>, states: seq<Stamps>, k: nat, s: Stamp)
    requires |states| == |calls| + 1 && 0 < k <= |calls|
    requires Keys(states[k - 1]) && |states[k - 1]| <= MAX_TRACKED
    requires var call := calls[k - 1]; s == Stamp(call.tokenId, call.now) && call.now > 0 && Reports(states[k - 1], call.tokenId, call.now)
    requires forall r :: r in states[k - 1] ==> r.at > 0
    ensures StampTells(calls, states, k, s)
  {
    SinceIsBefore(calls, states, k - 1, s.key);
    if Get(Kept(states[k - 1], calls[k - 1]), s.key).Some? { KeptThoughReported(states[k - 1], calls[k - 1]); }
    hide Kept, Get, Reports, Keys;
  }

  /** A stamp that was there already. */
  lemma OldStampTells(calls: seq<Refusal>, states: seq<Stamps>, k: nat, s: Stamp)
    requires |states| == |calls| + 1 && 0 < k <= |calls|
    requires s in states[k - 1] && Keys(Kept(states[k - 1], calls[k - 1])) && s in Kept(states[k - 1], calls[k - 1])
    requires !Reported(calls, states, k - 1, s.key) && StampTells(calls, states, k - 1, s)
    ensures StampTells(calls, states, k, s)
  {
    KeptSince(calls, states, k, s);
    hide Kept, Get, Reports, Keys, Since;
  }

  /** No report of `other` before `k` is as late as `moment`. */
  ghost predicate NotReportedFrom(calls: seq<Refusal>, states: seq<Stamps>, k: nat, other: string, moment: int)
    requires |states| == |calls| + 1
  {
    forall l :: 0 <= l < k && Reported(calls, states, l, other) ==> calls[l].now < moment
  }

  /** The id was reported again, keeping its place, later than the last report of the other. */
  ghost predicate OvertakenBy(calls: seq<Refusal>, states: seq<Stamps>, k: nat, key: string, s: Stamp)
    requires |states| == |calls| + 1 && k <= |calls|
  {
    exists j :: 0 <= j < k && ReportedAgain(calls, states, j, key) && NotReportedFrom(calls, states, k, s.key, calls[j].now)
  }

  /** An id that is pushed out came to be held before every other id that is. */
  lemma PushedOutCameFirst(calls: seq<Refusal>, states: seq<Stamps>, k: nat, s: Stamp)
    requires IsRun(calls, states) && k < |calls| && PushedOut(states[k], calls[k].now).Some? && s in states[k]
    ensures var key := PushedOut(states[k], calls[k].now).value;
            s.key != key ==> Since(calls, states, k, key) < Since(calls, states, k, s.key)
  {
    RunKeepsBound(calls, states, k);
    PushedOutOnlyWhenFull(states[k], calls[k].now);
    HeldInOrder(calls, states, k);
    hide IsRun, Since, PushedOut, Keys;
    var i :| 0 <= i < |states[k]| && states[k][i] == s;
  }

  /** At this report the id was pushed out to make room. */
  ghost predicate PushedOutAt(calls: seq<Refusal>, states: seq<Stamps>, j: int, key: string)
    requires |states| == |calls| + 1
  {
    0 <= j < |calls| && Reports(states[j], calls[j].tokenId, calls[j].now) && PushedOut(states[j], calls[j].now) == Some(key)
  }

  lemma PushedOutIsGone(calls: seq<Refusal>, states: seq<Stamps>, j: nat, key: string)
    requires IsRun(calls, states) && PushedOutAt(calls, states, j, key)
    ensures Get(states[j + 1], key).None?
  {
    var m, call := states[j], calls[j];
    RunKeepsBound(calls, states, j);
    PushedOutOnlyWhenFull(m, call.now);
    StampsTell(calls, states, j);
    assert m[0] in m && m[0].at > 0;
    GetFinds(m, m[0]);
    AllRecent(m, call.now);
    RecentKeeps(m, call.now);
    hide IsRun, StampTells, Keys;
    if call.tokenId == key { StampIsFresh(m, call, m[0]); }
    GetIsSomewhere(m[1..], key);
    SetGets(m[1..], call.tokenId, call.now);
  }

  /** A refusal is reported if and only if each report of its id in the hour before it was undone by pushing the id out. */
  lemma ReportedExactly(calls: seq<Refusal>, states: seq<Stamps>, k: nat)
    requires IsRun(calls, states) && k < |calls|
    ensures var key := calls[k].tokenId;
            Reported(calls, states, k, key) <==>
            && key != ""
            && forall i :: 0 <= i < k && Reported(calls, states, i, key) && calls[k].now - calls[i].now < 3_600_000 ==>
                 exists j :: i < j < k && PushedOutAt(calls, states, j, key)
  {
    var key := calls[k].tokenId;
    if Reported(calls, states, k, key) {
      forall i | 0 <= i < k && Reported(calls, states, i, key) && calls[k].now - calls[i].now < 3_600_000
        ensures exists j :: i < j < k && PushedOutAt(calls, states, j, key)
      {
        ReportsAnHourApart(calls, states, i, k);
        var j :| i < j < k && Reports(states[j], calls[j].tokenId, calls[j].now) && PushedOut(states[j], calls[j].now) == Some(key);
        assert PushedOutAt(calls, states, j, key);
      }
    } else if key != "" {
      var s := Stamp(key, Get(states[k], key).value);
      GetIsSomewhere(states[k], key);
      StampsTell(calls, states, k);
      assert StampTells(calls, states, k, s);
      HeldSince(calls, states, k, key);
      var last := Last(calls, states, k, key);
      hide IsRun, PushedOutAt, AllTell, Since, Last, Reports;
      forall j | last < j < k ensures !PushedOutAt(calls, states, j, key) {
        if PushedOutAt(calls, states, j, key) { PushedOutIsGone(calls, states, j, key); }
      }
    }
  }

  /**
   The comment says the oldest is forgotten. What goes is the id that came to be held first, and no id held
   was reported longer ago if and only if that one was not reported again, keeping its place, later than the
   last report of some id still held.
   */
  lemma OldestGoesExactly(calls: seq<Refusal>, states: seq<Stamps>, k: nat)
    requires IsRun(calls, states) && k < |calls| && PushedOut(states[k], calls[k].now).Some?
    ensures var m, key := states[k], PushedOut(states[k], calls[k].now).value;
            && m[0].key == key
            && ((forall s :: s in m ==> m[0].at <= s.at) <==>
                !exists s :: s in m && OvertakenBy(calls, states, k, key, s))
  {
    var m, key := states[k], PushedOut(states[k], calls[k].now).value;
    RunKeepsBound(calls, states, k);
    PushedOutOnlyWhenFull(m, calls[k].now);
    StampsTell(calls, states, k);
    assert m[0] in m;
    forall s | s in m
      ensures m[0].at <= s.at <==> !OvertakenBy(calls, states, k, key, s)
    {
      if s != m[0] { PushedOutCameFirst(calls, states, k, s); GetFinds(m, s); GetFinds(m, m[0]); }
      Overtaken(calls, states, k, m[0], s);
    }
    hide IsRun, StampTells, OvertakenBy, PushedOut, Keys;
  }

  /** Of two ids held, the one that came first was reported last exactly when it was reported again after the other's last report. */
  lemma Overtaken(calls: seq<Refusal>, states: seq<Stamps>, k: nat, first: Stamp, s: Stamp)
    requires IsRun(calls, states) && k <= |calls|
    requires StampTells(calls, states, k, first) && StampTells(calls, states, k, s)
    requires s == first || Since(calls, states, k, first.key) < Since(calls, states, k, s.key)
    ensures first.at <= s.at <==> !OvertakenBy(calls, states, k, first.key, s)
  {
    var j, l := Last(calls, states, k, first.key), Last(calls, states, k, s.key);
    if first.at > s.at {
      forall i | 0 <= i < k && Reported(calls, states, i, s.key) ensures calls[i].now < first.at {
        LastIsLatest(calls, states, k, s.key, i);
        assert calls[i].now <= calls[l].now;
      }
      assert ReportedAgain(calls, states, j, first.key);
    }
    if i :| 0 <= i < k && ReportedAgain(calls, states, i, first.key) && NotReportedFrom(calls, states, k, s.key, calls[i].now) {
      LastIsLatest(calls, states, k, first.key, i);
      assert calls[i].now <= calls[j].now && calls[l].now < calls[i].now;
    }
  }

  // ----- What is pushed out is not always the oldest report

  const HOUR := REPORT_INTERVAL

  function FillKey(n: nat): string { seq(n + 1, _ => 'd') }

  function Filled(n: nat): Stamps { [Stamp("A", 1 + HOUR), Stamp("B", 2)] + seq(n, i requires 0 <= i < n => Stamp(FillKey(i), 1 + HOUR)) }

  lemma {:induction false} GetNone(m: Stamps, key: string)
    requires forall i :: 0 <= i < |m| ==> m[i].key != key
    ensures Get(m, key).None? && Set(m, key, 1 + HOUR) == m + [Stamp(key, 1 + HOUR)]
  {
    if m != [] { GetNone(m[1..], key); }
  }

  lemma FillStep(n: nat)
    requires n + 2 < MAX_TRACKED
    ensures AfterRefusal(Filled(n), FillKey(n), 1 + HOUR) == Filled(n + 1)
  {
    var m := Filled(n);
    forall i | 0 <= i < |m| ensures m[i].key != FillKey(n) {
      if i >= 2 { assert |m[i].key| == i - 1; } else { assert FillKey(n)[0] == 'd'; }
    }
    GetNone(m, FillKey(n));
    assert Filled(n + 1) == m + [Stamp(FillKey(n), 1 + HOUR)];
  }

  lemma FillStart() returns (calls: seq<Refusal>, states: seq<Stamps>)
    ensures IsRun(calls, states) && states[|calls|] == Filled(0)
    ensures forall i :: 0 <= i < |calls| ==> calls[i].now <= 1 + HOUR
  {
    var s1, s2, s3 := [Stamp("A", 1)], [Stamp("A", 1), Stamp("B", 2)], [Stamp("A", 1 + HOUR), Stamp("B", 2)];
    assert s2[1..] == [Stamp("B", 2)] && s1[1..] == [];
    calls := [Refusal("A", 1), Refusal("B", 2), Refusal("A", 1 + HOUR)];
    states := [[], s1, s2, s3];
    assert AfterRefusal([], "A", 1) == s1;
    assert AfterRefusal(s1, "B", 2) == s2;
    assert AfterRefusal(s2, "A", 1 + HOUR) == s3;
    assert Filled(0) == s3;
    hide AfterRefusal;
  }

  lemma {:induction false} FillRun(n: nat) returns (calls: seq<Refusal>, states: seq<Stamps>)
    requires n + 2 <= MAX_TRACKED
    ensures IsRun(calls, states) && states[|calls|] == Filled(n)
    ensures forall i :: 0 <= i < |calls| ==> calls[i].now <= 1 + HOUR
  {
    if n == 0 {
      calls, states := FillStart();
    } else {
      calls, states := FillRun(n - 1);
      FillStep(n - 1);
      hide AfterRefusal, Filled;
      calls, states := calls + [Refusal(FillKey(n - 1), 1 + HOUR)], states + [Filled(n)];
    }
  }

  /**
   The comment says the oldest is forgotten. What goes is the id first seen: a run in which the id pushed
   out was reported more recently than one that stays.
   */
  lemma FirstSeenIsNotOldest() returns (calls: seq<Refusal>, states: seq<Stamps>)
    ensures IsRun(calls, states)
    ensures var m := states[|calls|];
            && PushedOut(m, 1 + HOUR) == Some("A")
            && Get(m, "A") == Some(1 + HOUR)
            && Get(MakeRoom(m, 1 + HOUR), "B") == Some(2)
  {
    calls, states := FillRun(498);
    var m := Filled(498);
    assert m[1..][0] == Stamp("B", 2);
    EveryStampRecent(m, 1 + HOUR);
  }

  lemma {:induction false} EveryStampRecent(m: Stamps, now: int)
    requires forall i :: 0 <= i < |m| ==> now - m[i].at < HOUR
    ensures Recent(m, now) == m
  {
    if m != [] {
      EveryStampRecent(m[1..], now);
      assert m == [m[0]] + m[1..];
    }
  }

  /** At the epoch itself a stamp counts as none; any other keeps its id quiet for an hour. */
  lemma StampsKeepQuiet(m: Stamps, key: string, now: int)
    requires key != ""
    ensures match Get(m, key)
            case None => Reports(m, key, now)
            case Some(at) => Reports(m, key, now) <==> at == 0 || now >= at + 3_600_000
  {
  }

  // ----- Noting uses

  datatype Use = Use(tokenId: string, now: int)

  type Writes = map<string, int>

  predicate Written(m: Writes, use: Use) { !(use.tokenId in m && m[use.tokenId] != 0 && use.now - m[use.tokenId] < USE_INTERVAL) }

  function AfterUse(m: Writes, use: Use): Writes { if Written(m, use) then m[use.tokenId := use.now] else m }

  /** Uses in the order they come; the clock never goes back and is past the epoch. */
  ghost predicate IsUseRun(uses: seq<Use>, states: seq<Writes>) {
    && |states| == |uses| + 1 && states[0] == map[]
    && (forall i :: 0 <= i < |uses| ==> uses[i].now > 0 && states[i + 1] == AfterUse(states[i], uses[i]))
    && (forall i, j :: 0 <= i <= j < |uses| ==> uses[i].now <= uses[j].now)
  }

  /** The use at `i` was written to the row. */
  ghost predicate WrittenAt(uses: seq<Use>, states: seq<Writes>, i: int, tokenId: string)
    requires |states| == |uses| + 1
  {
    0 <= i < |uses| && uses[i].tokenId == tokenId && Written(states[i], uses[i])
  }

  /** The map holds, for each token, the moment of its last written use. */
  lemma {:induction false} LastWritten(uses: seq<Use>, states: seq<Writes>, k: nat, tokenId: string)
    requires IsUseRun(uses, states) && k <= |uses|
    ensures tokenId in states[k] ==>
              exists i :: i < k && WrittenAt(uses, states, i, tokenId) && uses[i].now == states[k][tokenId]
    ensures forall i :: i < k && WrittenAt(uses, states, i, tokenId) ==> tokenId in states[k] && uses[i].now <= states[k][tokenId]
  {
    if k > 0 {
      LastWritten(uses, states, k - 1, tokenId);
      assert states[k - 1 + 1] == AfterUse(states[k - 1], uses[k - 1]);
      if uses[k - 1].tokenId == tokenId && Written(states[k - 1], uses[k - 1]) {
        assert WrittenAt(uses, states, k - 1, tokenId);
      }
      forall i | i < k && WrittenAt(uses, states, i, tokenId)
        ensures tokenId in states[k] && uses[i].now <= states[k][tokenId]
      {
        assert uses[i].now <= uses[k - 1].now;
      }
    }
  }

  /** A use is written to the row if and only if no use of that token was written in the minute before it. */
  lemma WrittenExactly(uses: seq<Use>, states: seq<Writes>, k: nat)
    requires IsUseRun(uses, states) && k < |uses|
    ensures Written(states[k], uses[k]) <==>
            forall i :: i < k && WrittenAt(uses, states, i, uses[k].tokenId) ==> uses[k].now - uses[i].now >= 60_000
  {
    LastWritten(uses, states, k, uses[k].tokenId);
  }

  /** The same of uses, for a minute. */
  lemma WritesKeepQuiet(m: Writes, use: Use)
    ensures use.tokenId !in m ==> Written(m, use)
    ensures use.tokenId in m ==> (Written(m, use) <==> m[use.tokenId] == 0 || use.now >= m[use.tokenId] + 60_000)
  {
  }

  lemma OneMoreRecent(rest: Stamps, now: int, kept: Stamps)
    requires rest != []
    ensures kept + Recent(rest, now) ==
            (if now - rest[0].at < REPORT_INTERVAL then kept + [rest[0]] else kept) + Recent(rest[1..], now)
  {
    var later := Recent(rest[1..], now);
    assert Recent(rest, now) == (if now - rest[0].at < REPORT_INTERVAL then [rest[0]] else []) + later;
    hide Recent;
    assert kept + ([rest[0]] + later) == (kept + [rest[0]]) + later;
    assert [] + later == later;
  }

  // ----- The module state

  class Throttles {
    var refusalReportedAt: Stamps
    var lastWriteAt: Writes

    ghost predicate Valid()
      reads this
    {
      Keys(refusalReportedAt) && |refusalReportedAt| <= MAX_TRACKED
    }

    constructor ()
      ensures Valid() && refusalReportedAt == [] && lastWriteAt == map[]
    {
      refusalReportedAt, lastWriteAt := [], map[];
    }

    method ShouldReportRefusal(tokenId: string, now: int) returns (report: bool)
      requires Valid()
      modifies this`refusalReportedAt
      ensures Valid()
      ensures report == Reports(old(refusalReportedAt), tokenId, now)
      ensures refusalReportedAt == AfterRefusal(old(refusalReportedAt), tokenId, now)
    {
      RefusalKeepsBound(refusalReportedAt, tokenId, now);
      if tokenId == "" { return false; }
      var previous := Get(refusalReportedAt, tokenId);
      if previous.Some? && previous.value != 0 && now - previous.value < REPORT_INTERVAL { return false; }
      if |refusalReportedAt| >= MAX_TRACKED {
        DeleteOld(now);
        if |refusalReportedAt| >= MAX_TRACKED { refusalReportedAt := refusalReportedAt[1..]; }
      }
      refusalReportedAt := Set(refusalReportedAt, tokenId, now);
      return true;
    }

    /** The loop that deletes what is an hour old while it walks the map. */
    method DeleteOld(now: int)
      modifies this`refusalReportedAt
      ensures refusalReportedAt == Recent(old(refusalReportedAt), now)
    {
      var kept: Stamps, rest := [], refusalReportedAt;
      while rest != []
        invariant kept + Recent(rest, now) == Recent(refusalReportedAt, now)
        invariant refusalReportedAt == old(refusalReportedAt)
        decreases |rest|
      {
        OneMoreRecent(rest, now, kept);
        hide Recent;
        if now - rest[0].at < REPORT_INTERVAL { kept := kept + [rest[0]]; }
        rest := rest[1..];
      }
      refusalReportedAt := kept;
    }

    /** Whether a use is written to the row, as `WrittenExactly` says of every run of uses. */
    method NoteUse(tokenId: string, now: int) returns (write: bool)
      modifies this`lastWriteAt
      ensures write == Written(old(lastWriteAt), Use(tokenId, now))
      ensures lastWriteAt == AfterUse(old(lastWriteAt), Use(tokenId, now))
    {
      if tokenId in lastWriteAt {
        var previous := lastWriteAt[tokenId];
        if previous != 0 && now - previous < USE_INTERVAL { return false; }
      }
      lastWriteAt := lastWriteAt[tokenId := now];
      return true;
    }
  }
}
