/**
 The life of API tokens over every run of minting, renaming, using, revoking and purging. Minting is two
 steps, the check and the insertion, because the source waits in between. Times are the ISO moments as
 numbers; the clock never goes back. A digest stands for SHA-256, which tells secrets apart.
 */
module ApiTokens {
  import opened Common
  import opened Text
  import opened TokenFormat

  type User = string
  type Id = string

  /** What is stored of the secret; a revocation leaves what no secret hashes to. */
  datatype Hash = Digest(secret: string) | Revoked

  datatype Row = Row(userId: User, name: string, hash: Hash, scope: string,
                     createdAt: int, expiresAt: Option<int>, lastUsedAt: Option<int>, revokedAt: Option<int>)

  datatype Request = Request(userId: User, scope: string, expiresAt: Option<int>)

  /** `minting` holds the requests past the check and not yet inserted; `issued` every id ever drawn. */
  datatype State = State(table: map<Id, Row>, now: int, minting: seq<Request>, issued: set<Id>)

  datatype Days = NoEnd | NotANumber | Days(n: real)

  const DAY: int := 24 * 60 * 60 * 1000
  const MAX_EXPIRY_DAYS: int := 3650
  const MAX_TOKENS_PER_USER: nat := 50
  const TOMBSTONE_DAYS: int := 90
  const SCOPES := {"read", "write"}

  datatype Expiry = Expiry(at: Option<int>) | BadExpiry

  function ExpiryFromDays(days: Days, now: int): Expiry {
    match days
    case NoEnd => Expiry(None)
    case NotANumber => BadExpiry
    case Days(n) => if n.Floor <= 0 || n.Floor > MAX_EXPIRY_DAYS then BadExpiry else Expiry(Some(now + n.Floor * DAY))
  }

  function LiveIds(table: map<Id, Row>, user: User): set<Id> {
    set id | id in table && table[id].userId == user && table[id].revokedAt.None?
  }

  datatype Event =
    | MintCheck(userId: User, scope: string, days: Days, askedAt: int)
    | MintInsert(which: nat, name: string, id: Id, secret: string)
    | Rename(userId: User, id: Id, name: string)
    | NoteUse(id: Id)
    | Revoke(userId: User, id: Id)
    | RevokeAll(userId: User)
    | Wait(ms: nat)

  predicate Enabled(st: State, e: Event) {
    && (e.MintInsert? ==> e.which < |st.minting| && IsId(e.id) && IsSecret(e.secret) && e.id !in st.issued)
    && (e.MintCheck? ==> e.askedAt <= st.now)
  }

  /** The count comes back from an await; the expiry was computed before it, when the token was asked for. */
  function OnMintCheck(st: State, user: User, scope: string, days: Days, askedAt: int): State {
    var expiry := ExpiryFromDays(days, askedAt);
    if scope !in SCOPES || expiry.BadExpiry? || |LiveIds(st.table, user)| >= MAX_TOKENS_PER_USER then st
    else st.(minting := st.minting + [Request(user, scope, expiry.at)])
  }

  function OnMintInsert(st: State, which: nat, name: string, id: Id, secret: string): State
    requires which < |st.minting|
  {
    var r := st.minting[which];
    State(st.table[id := Row(r.userId, name, Digest(secret), r.scope, st.now, r.expiresAt, None, None)],
          st.now, st.minting[..which] + st.minting[which + 1..], st.issued + {id})
  }

  predicate Owns(st: State, user: User, id: Id) {
    id in st.table && st.table[id].userId == user && st.table[id].revokedAt.None?
  }

  /** Tombstones of an account older than the cutoff go. */
  function Purge(table: map<Id, Row>, user: User, now: int): map<Id, Row> {
    map id | id in table && !(table[id].userId == user && table[id].revokedAt.Some?
                              && table[id].revokedAt.value < now - TOMBSTONE_DAYS * DAY) :: table[id]
  }

  /** Of the rows, exactly the account's own tombstones older than ninety days go. */
  lemma PurgeExactly(table: map<Id, Row>, user: User, now: int, id: Id)
    ensures id in Purge(table, user, now) <==>
            && id in table
            && (table[id].userId == user && table[id].revokedAt.Some? ==> now <= table[id].revokedAt.value + 90 * 86_400_000)
    ensures id in Purge(table, user, now) ==> Purge(table, user, now)[id] == table[id]
  {
  }

  function Buried(row: Row, now: int): Row { row.(hash := Revoked, revokedAt := Some(now)) }

  function OnRevoke(st: State, user: User, id: Id): State {
    if Owns(st, user, id) then st.(table := Purge(st.table[id := Buried(st.table[id], st.now)], user, st.now)) else st
  }

  /** Every live token of an account turned into a tombstone. */
  function BuryAll(table: map<Id, Row>, user: User, now: int): map<Id, Row> {
    map id | id in table :: if table[id].userId == user && table[id].revokedAt.None? then Buried(table[id], now) else table[id]
  }

  function OnRevokeAll(st: State, user: User): State {
    st.(table := Purge(BuryAll(st.table, user, st.now), user, st.now))
  }

  function Step(st: State, e: Event): State
    requires Enabled(st, e)
  {
    match e
    case MintCheck(user, scope, days, askedAt) => OnMintCheck(st, user, scope, days, askedAt)
    case MintInsert(which, name, id, secret) => OnMintInsert(st, which, name, id, secret)
    case Rename(user, id, name) => if Owns(st, user, id) then st.(table := st.table[id := st.table[id].(name := name)]) else st
    case NoteUse(id) => if id in st.table then st.(table := st.table[id := st.table[id].(lastUsedAt := Some(st.now))]) else st
    case Revoke(user, id) => OnRevoke(st, user, id)
    case RevokeAll(user) => OnRevokeAll(st, user)
    case Wait(ms) => st.(now := st.now + ms)
  }

  datatype Answer = Ok(userId: User, tokenId: Id, scope: string) | Malformed | Unknown | WasRevoked(tokenId: Id) | Expired(tokenId: Id)

  function Authenticate(st: State, value: string): Answer {
    match ParseToken(value)
    case None => Malformed
    case Some(parts) =>
      if parts.id !in st.table then Unknown
      else
        var row := st.table[parts.id];
        if row.revokedAt.Some? then WasRevoked(parts.id)
        else if row.hash != Digest(parts.secret) then Unknown
        else if row.expiresAt.Some? && row.expiresAt.value <= st.now then Expired(parts.id)
        else Ok(row.userId, parts.id, if row.scope in SCOPES then row.scope else "read")
  }

  // ----- Runs

  const Init := State(map[], 0, [], {})

  ghost predicate IsRun(st: State, events: seq<Event>, states: seq<State>) {
    && |states| == |events| + 1 && states[0] == st
    && forall i :: 0 <= i < |events| ==> Enabled(states[i], events[i]) && states[i + 1] == Step(states[i], events[i])
  }

  ghost predicate Inv(st: State) {
    && st.table.Keys <= st.issued
    && (forall k :: 0 <= k < |st.minting| ==> st.minting[k].scope in SCOPES)
  }

  lemma StepKeepsInv(st: State, e: Event)
    requires Inv(st) && Enabled(st, e)
    ensures Inv(Step(st, e)) && st.issued <= Step(st, e).issued && st.now <= Step(st, e).now
  {
  }

  lemma {:induction false} RunKeepsInv(st: State, events: seq<Event>, states: seq<State>, k: nat)
    requires Inv(st) && IsRun(st, events, states) && k <= |events|
    ensures Inv(states[k])
  {
    if k > 0 {
      RunKeepsInv(st, events, states, k - 1);
      hide Inv, Step, Enabled;
      StepKeepsInv(states[k - 1], events[k - 1]);
    }
  }

  lemma {:induction false} ClockNeverGoesBack(st: State, events: seq<Event>, states: seq<State>, i: nat, k: nat)
    requires Inv(st) && IsRun(st, events, states) && i <= k <= |events|
    ensures states[i].now <= states[k].now
  {
    if i < k {
      ClockNeverGoesBack(st, events, states, i, k - 1);
      RunKeepsInv(st, events, states, k - 1);
      hide Inv, Step, Enabled;
      StepKeepsInv(states[k - 1], events[k - 1]);
    }
  }

  // ----- A token works exactly until its expiry or its revocation

  datatype Token = Token(id: Id, secret: string, userId: User, scope: string, expiresAt: Option<int>)

  ghost predicate Live(st: State, t: Token) {
    && t.id in st.table && t.id in st.issued
    && var row := st.table[t.id];
       row.userId == t.userId && row.hash == Digest(t.secret) && row.scope == t.scope
       && row.expiresAt == t.expiresAt && row.revokedAt.None?
  }

  ghost predicate Gone(st: State, t: Token) {
    t.id in st.issued && (t.id in st.table ==> st.table[t.id].revokedAt.Some?)
  }

  predicate Revokes(e: Event, t: Token) {
    e == Revoke(t.userId, t.id) || e == RevokeAll(t.userId)
  }

  /** What the insertion of a request makes. */
  function Minted(st: State, e: Event): Token
    requires e.MintInsert? && Enabled(st, e)
  {
    var r := st.minting[e.which];
    Token(e.id, e.secret, r.userId, r.scope, r.expiresAt)
  }

  lemma MintedIsLive(st: State, e: Event)
    requires e.MintInsert? && Enabled(st, e)
    ensures Live(Step(st, e), Minted(st, e))
  {
  }

  lemma LiveUntilRevoked(st: State, e: Event, t: Token)
    requires Inv(st) && Enabled(st, e) && Live(st, t)
    ensures if Revokes(e, t) then Gone(Step(st, e), t) else Live(Step(st, e), t)
  {
  }

  lemma GoneForGood(st: State, e: Event, t: Token)
    requires Inv(st) && Enabled(st, e) && Gone(st, t)
    ensures Gone(Step(st, e), t)
  {
  }

  lemma AuthenticatesWhileLive(st: State, t: Token)
    requires IsId(t.id) && IsSecret(t.secret) && t.scope in SCOPES
    ensures Gone(st, t) ==> !Authenticate(st, Value(Parts(t.id, t.secret))).Ok?
    ensures Live(st, t) ==>
              Authenticate(st, Value(Parts(t.id, t.secret))) ==
              if t.expiresAt.Some? && t.expiresAt.value <= st.now then Expired(t.id) else Ok(t.userId, t.id, t.scope)
  {
    ParsesExactly(Value(Parts(t.id, t.secret)), Parts(t.id, t.secret));
    hide ParseToken, Value, IsId, IsSecret;
  }

  lemma {:induction false} LiveOrGone(st: State, events: seq<Event>, states: seq<State>, i: nat, k: nat)
    requires Inv(st) && IsRun(st, events, states) && i < k <= |events| && events[i].MintInsert?
    ensures Enabled(states[i], events[i])
    ensures var t := Minted(states[i], events[i]);
            if exists j :: i < j < k && Revokes(events[j], t) then Gone(states[k], t) else Live(states[k], t)
  {
    var t := Minted(states[i], events[i]);
    hide Inv, Step, Live, Gone, Revokes, Minted;
    if k == i + 1 {
      MintedIsLive(states[i], events[i]);
    } else {
      LiveOrGone(st, events, states, i, k - 1);
      RunKeepsInv(st, events, states, k - 1);
      if exists j :: i < j < k - 1 && Revokes(events[j], t) {
        GoneForGood(states[k - 1], events[k - 1], t);
      } else {
        LiveUntilRevoked(states[k - 1], events[k - 1], t);
      }
    }
  }

  /**
   In every state of every run after it was minted, a token's value authenticates as its own account,
   id and scope if and only if no revocation of it or of its account came since and it is not past its expiry.
   */
  lemma WorksExactlyUntil(st: State, events: seq<Event>, states: seq<State>, i: nat, k: nat)
    requires Inv(st) && IsRun(st, events, states) && i < k <= |events| && events[i].MintInsert?
    ensures Enabled(states[i], events[i])
    ensures var t := Minted(states[i], events[i]);
            var answer := Authenticate(states[k], Value(Parts(t.id, t.secret)));
            && (answer == Ok(t.userId, t.id, t.scope) <==>
                  && (forall j :: i < j < k ==> !Revokes(events[j], t))
                  && (t.expiresAt.Some? ==> states[k].now < t.expiresAt.value))
            && (answer.Ok? ==> answer == Ok(t.userId, t.id, t.scope))
  {
    var t := Minted(states[i], events[i]);
    RunKeepsInv(st, events, states, i);
    assert t.scope in SCOPES && IsId(t.id) && IsSecret(t.secret);
    LiveOrGone(st, events, states, i, k);
    AuthenticatesWhileLive(states[k], t);
    hide Authenticate, Live, Gone, Revokes, IsRun, Inv, Step;
  }

  /** Once it has stopped working a token never works again. */
  lemma NeverAgain(st: State, events: seq<Event>, states: seq<State>, i: nat, k: nat, later: nat)
    requires Inv(st) && IsRun(st, events, states) && i < k <= later <= |events| && events[i].MintInsert?
    ensures Enabled(states[i], events[i])
    ensures var value := Value(Parts(events[i].id, events[i].secret));
            Authenticate(states[later], value).Ok? ==> Authenticate(states[k], value).Ok?
  {
    WorksExactlyUntil(st, events, states, i, k);
    WorksExactlyUntil(st, events, states, i, later);
    ClockNeverGoesBack(st, events, states, k, later);
    hide Authenticate, IsRun, Inv, Step, Revokes, Value;
  }

  /** Every secret the table can still match came out of an insertion in the run. */
  lemma {:induction false} EverySecretWasMinted(events: seq<Event>, states: seq<State>, k: nat, id: Id)
    requires IsRun(Init, events, states) && k <= |events|
    requires id in states[k].table && states[k].table[id].hash.Digest?
    ensures exists i :: 0 <= i < k && events[i].MintInsert? && events[i].id == id
                        && events[i].secret == states[k].table[id].hash.secret
  {
    if k > 0 {
      var e, before := events[k - 1], states[k - 1];
      HashesOnlyFromMinting(before, e, id);
      hide Step;
      if !(e.MintInsert? && e.id == id) { EverySecretWasMinted(events, states, k - 1, id); }
    }
  }

  lemma HashesOnlyFromMinting(st: State, e: Event, id: Id)
    requires Enabled(st, e) && id in Step(st, e).table && Step(st, e).table[id].hash.Digest?
    ensures if e.MintInsert? && e.id == id then Step(st, e).table[id].hash == Digest(e.secret)
            else id in st.table && st.table[id].hash == Step(st, e).table[id].hash
  {
  }

  /** Nothing but a minted value ever authenticates. */
  lemma OnlyMintedValuesWork(events: seq<Event>, states: seq<State>, k: nat, value: string)
    requires IsRun(Init, events, states) && k <= |events| && Authenticate(states[k], value).Ok?
    ensures exists i :: 0 <= i < k && events[i].MintInsert? && value == Value(Parts(events[i].id, events[i].secret))
  {
    var parts := ParseToken(value).value;
    ParsesExactly(value, parts);
    EverySecretWasMinted(events, states, k, parts.id);
    hide Value, ParseToken;
    var i :| 0 <= i < k && events[i].MintInsert? && events[i].id == parts.id && events[i].secret == parts.secret;
    assert Parts(events[i].id, events[i].secret) == parts;
  }

  /** A life that can be asked for: without end, or of one to 3650 whole days. */
  ghost predicate IsLife(days: Days) { days.NoEnd? || (days.Days? && 1 <= days.n.Floor <= 3650) }

  /** When a life asked for at a moment is over, in milliseconds. */
  ghost predicate EndsAt(days: Days, askedAt: int, end: Option<int>) {
    if days.Days? then end == Some(askedAt + days.n.Floor * 86_400_000) else end == None
  }

  /** What is asked for: its account, its scope, and a life counted from the moment of asking. */
  ghost predicate AsksFor(e: Event, r: Request) {
    && e.MintCheck? && (e.scope == "read" || e.scope == "write") && IsLife(e.days)
    && r.userId == e.userId && r.scope == e.scope && EndsAt(e.days, e.askedAt, r.expiresAt)
  }

  /** A request for a token goes on exactly when its scope and its life can be had and the account holds fewer than fifty. */
  lemma CheckExactly(st: State, e: Event)
    requires Enabled(st, e) && e.MintCheck?
    ensures var after := Step(st, e);
            if (e.scope == "read" || e.scope == "write") && IsLife(e.days) && |LiveIds(st.table, e.userId)| < 50
            then exists r :: AsksFor(e, r) && after == st.(minting := st.minting + [r])
            else after == st
  {
    var expiry := ExpiryFromDays(e.days, e.askedAt);
    if expiry.Expiry? && e.scope in SCOPES { assert AsksFor(e, Request(e.userId, e.scope, expiry.at)); }
    hide LiveIds;
  }

  /** Whatever waits to be inserted was asked for like that, whenever it is inserted. */
  lemma {:induction false} EveryMintWasAsked(events: seq<Event>, states: seq<State>, k: nat, which: nat)
    requires IsRun(Init, events, states) && k <= |events| && which < |states[k].minting|
    ensures exists i :: 0 <= i < k && AsksFor(events[i], states[k].minting[which])
  {
    if k > 0 {
      var e, before, r := events[k - 1], states[k - 1], states[k].minting[which];
      RequestsComeFromChecks(before, e, r);
      hide Step, Enabled, AsksFor;
      if !AsksFor(e, r) {
        var w :| 0 <= w < |before.minting| && before.minting[w] == r;
        EveryMintWasAsked(events, states, k - 1, w);
      }
    }
  }

  lemma RequestsComeFromChecks(st: State, e: Event, r: Request)
    requires Enabled(st, e) && r in Step(st, e).minting
    ensures AsksFor(e, r) || r in st.minting
  {
  }

  /** A token works as long as was asked for: until its last day is over, unless it is revoked. */
  lemma LivesAsAsked(events: seq<Event>, states: seq<State>, i: nat, k: nat)
    requires IsRun(Init, events, states) && i < k <= |events| && events[i].MintInsert?
    ensures events[i].which < |states[i].minting|
    ensures exists m :: 0 <= m < i && AsksFor(events[m], states[i].minting[events[i].which]) &&
              var t := Minted(states[i], events[i]);
              (Authenticate(states[k], Value(Parts(t.id, t.secret))) == Ok(events[m].userId, events[i].id, events[m].scope) <==>
                && (forall j :: i < j < k ==> !Revokes(events[j], t))
                && (events[m].days.Days? ==> states[k].now < events[m].askedAt + events[m].days.n.Floor * 86_400_000))
  {
    WorksExactlyUntil(Init, events, states, i, k);
    EveryMintWasAsked(events, states, i, events[i].which);
    hide Authenticate, Value, IsRun, Inv, Step, Revokes;
    var m :| 0 <= m < i && AsksFor(events[m], states[i].minting[events[i].which]);
  }

  // ----- The cap on live tokens

  function InFlight(minting: seq<Request>, user: User): nat {
    if minting == [] then 0 else (if minting[0].userId == user then 1 else 0) + InFlight(minting[1..], user)
  }

  lemma {:induction false} InFlightJoins(a: seq<Request>, b: seq<Request>, user: User)
    ensures InFlight(a + b, user) == InFlight(a, user) + InFlight(b, user)
  {
    if a == [] {
      assert a + b == b;
    } else {
      assert (a + b)[1..] == a[1..] + b;
      InFlightJoins(a[1..], b, user);
    }
  }

  lemma {:induction false} InFlightWithout(minting: seq<Request>, which: nat, user: User)
    requires which < |minting|
    ensures InFlight(minting, user) ==
            InFlight(minting[..which] + minting[which + 1..], user) + (if minting[which].userId == user then 1 else 0)
  {
    var a, r, b := minting[..which], minting[which], minting[which + 1..];
    assert minting == a + ([r] + b);
    InFlightJoins(a, [r] + b, user);
    InFlightJoins(a, b, user);
    assert ([r] + b)[1..] == b;
  }

  /** Live tokens and mints in progress together stay within the cap and the overlap allowed. */
  ghost predicate Capped(st: State, user: User, overlap: nat) {
    |LiveIds(st.table, user)| + InFlight(st.minting, user) < MAX_TOKENS_PER_USER + overlap
  }

  lemma StepKeepsCapped(st: State, e: Event, user: User, overlap: nat)
    requires Inv(st) && Enabled(st, e) && Capped(st, user, overlap)
    requires InFlight(Step(st, e).minting, user) <= overlap
    ensures Capped(Step(st, e), user, overlap)
  {
    match e
    case MintCheck(who, scope, days, askedAt) =>
      var after := OnMintCheck(st, who, scope, days, askedAt);
      if after != st {
        InFlightJoins(st.minting, [after.minting[|st.minting|]], user);
      }
    case MintInsert(which, name, id, secret) =>
      InFlightWithout(st.minting, which, user);
      InsertCounts(st, e, user);
    case _ =>
      NoMoreLive(st, e, user);
      Cardinality(LiveIds(Step(st, e).table, user), LiveIds(st.table, user));
  }

  lemma InsertCounts(st: State, e: Event, user: User)
    requires Inv(st) && Enabled(st, e) && e.MintInsert?
    ensures |LiveIds(Step(st, e).table, user)| == |LiveIds(st.table, user)| + (if st.minting[e.which].userId == user then 1 else 0)
  {
    var before, after := LiveIds(st.table, user), LiveIds(Step(st, e).table, user);
    assert e.id !in before;
    assert after == if st.minting[e.which].userId == user then before + {e.id} else before;
  }

  lemma NoMoreLive(st: State, e: Event, user: User)
    requires Enabled(st, e) && !e.MintInsert?
    ensures LiveIds(Step(st, e).table, user) <= LiveIds(st.table, user)
  {
  }

  /**
   An account whose mints overlap at most `overlap` deep never holds more than 49 + `overlap` live tokens:
   the promised fifty when they do not overlap.
   */
  lemma {:induction false} CapHolds(events: seq<Event>, states: seq<State>, k: nat, user: User, overlap: nat)
    requires IsRun(Init, events, states) && k <= |events| && overlap >= 1
    requires forall i :: 0 <= i <= k ==> InFlight(states[i].minting, user) <= overlap
    ensures Capped(states[k], user, overlap)
    ensures |LiveIds(states[k].table, user)| <= MAX_TOKENS_PER_USER - 1 + overlap
  {
    if k == 0 {
      assert LiveIds(Init.table, user) == {};
    } else {
      CapHolds(events, states, k - 1, user, overlap);
      RunKeepsInv(Init, events, states, k - 1);
      hide Capped, Inv, Step, Enabled, LiveIds, InFlight;
      assert states[k - 1 + 1] == Step(states[k - 1], events[k - 1]) && InFlight(states[k].minting, user) <= overlap;
      StepKeepsCapped(states[k - 1], events[k - 1], user, overlap);
      CappedMeans(states[k], user, overlap);
    }
  }

  lemma CappedMeans(st: State, user: User, overlap: nat)
    requires Capped(st, user, overlap)
    ensures |LiveIds(st.table, user)| <= MAX_TOKENS_PER_USER - 1 + overlap
  {
  }

  // ----- The cap is passed when two mints of one account overlap

  const HEX := "0123456789abcdef"
  const SOME_SECRET: string := seq(43, _ => 'A')

  function NthId(n: nat): string
    requires n < 256
  {
    "00000000000000" + [HEX[n / 16], HEX[n % 16]]
  }

  lemma NthIdIsId(n: nat)
    requires n < 256
    ensures IsId(NthId(n)) && IsSecret(SOME_SECRET)
  {
    var s := NthId(n);
    assert forall i :: 0 <= i < 14 ==> s[i] == '0';
    assert IsHex(HEX[n / 16]) && IsHex(HEX[n % 16]);
  }

  lemma HexInjective(m: nat, n: nat)
    requires m < 16 && n < 16 && HEX[m] == HEX[n]
    ensures m == n
  {
  }

  lemma NthIdInjective(m: nat, n: nat)
    requires m < 256 && n < 256 && NthId(m) == NthId(n)
    ensures m == n
  {
    assert NthId(m)[14] == HEX[m / 16] && NthId(n)[14] == HEX[n / 16];
    assert NthId(m)[15] == HEX[m % 16] && NthId(n)[15] == HEX[n % 16];
    HexInjective(m / 16, n / 16);
    HexInjective(m % 16, n % 16);
  }

  /** A run of one account, `u`, with never more than two of its mints in progress. */
  ghost predicate GoodRun(events: seq<Event>, states: seq<State>) {
    IsRun(Init, events, states) && forall i :: 0 <= i <= |events| ==> InFlight(states[i].minting, "u") <= 2
  }

  ghost function Last(states: seq<State>): State
    requires states != []
  {
    states[|states| - 1]
  }

  lemma Extend(events: seq<Event>, states: seq<State>, e: Event) returns (events': seq<Event>, states': seq<State>)
    requires GoodRun(events, states) && Enabled(Last(states), e) && InFlight(Step(Last(states), e).minting, "u") <= 2
    ensures GoodRun(events', states') && Last(states') == Step(Last(states), e)
  {
    hide Step, Enabled, InFlight;
    events', states' := events + [e], states + [Step(Last(states), e)];
  }

  /** `n` live tokens and `m` mints in progress, of ids drawn in order. */
  ghost predicate Holding(st: State, n: nat, m: nat) {
    && st.now >= 0 && n < 256 && |st.minting| == m && InFlight(st.minting, "u") == m
    && (forall k :: 0 <= k < m ==> st.minting[k].userId == "u")
    && |LiveIds(st.table, "u")| == n
    && (forall id :: id in st.issued ==> exists j :: 0 <= j < n && id == NthId(j))
    && Inv(st)
  }

  const CHECK := MintCheck("u", "read", NoEnd, 0)

  lemma Checked(st: State, n: nat, m: nat)
    requires Holding(st, n, m) && n < MAX_TOKENS_PER_USER
    ensures Holding(Step(st, CHECK), n, m + 1)
  {
    var r := Request("u", "read", None);
    assert Step(st, CHECK).minting == st.minting + [r];
    InFlightJoins(st.minting, [r], "u");
    StepKeepsInv(st, CHECK);
  }

  lemma Inserted(st: State, n: nat, m: nat)
    requires Holding(st, n, m) && m > 0 && n < 255
    ensures var e := MintInsert(0, "t", NthId(n), SOME_SECRET);
            Enabled(st, e) && Holding(Step(st, e), n + 1, m - 1)
  {
    var e := MintInsert(0, "t", NthId(n), SOME_SECRET);
    NthIdIsId(n);
    if NthId(n) in st.issued {
      var j :| 0 <= j < n && NthId(n) == NthId(j);
      NthIdInjective(n, j);
    }
    InFlightWithout(st.minting, 0, "u");
    InsertCounts(st, e, "u");
    StepKeepsInv(st, e);
    hide LiveIds, InFlight, Inv, NthId;
    assert forall id :: id in Step(st, e).issued ==> id in st.issued || id == NthId(n);
  }

  lemma {:induction false} MintMany(n: nat) returns (events: seq<Event>, states: seq<State>)
    requires n < MAX_TOKENS_PER_USER
    ensures GoodRun(events, states) && Holding(Last(states), n, 0)
  {
    if n == 0 {
      events, states := [], [Init];
      assert LiveIds(Init.table, "u") == {};
    } else {
      events, states := MintMany(n - 1);
      hide GoodRun, Holding, Step;
      events, states := CheckMore(events, states, n - 1, 0);
      events, states := InsertMore(events, states, n - 1, 1);
    }
  }

  lemma CheckMore(events: seq<Event>, states: seq<State>, n: nat, m: nat) returns (events': seq<Event>, states': seq<State>)
    requires GoodRun(events, states) && Holding(Last(states), n, m) && n < MAX_TOKENS_PER_USER && m < 2
    ensures GoodRun(events', states') && Holding(Last(states'), n, m + 1)
  {
    Checked(Last(states), n, m);
    hide Step;
    events', states' := Extend(events, states, CHECK);
  }

  lemma InsertMore(events: seq<Event>, states: seq<State>, n: nat, m: nat) returns (events': seq<Event>, states': seq<State>)
    requires GoodRun(events, states) && Holding(Last(states), n, m) && 0 < m <= 2 && n < 255
    ensures GoodRun(events', states') && Holding(Last(states'), n + 1, m - 1)
  {
    Inserted(Last(states), n, m);
    hide Step;
    events', states' := Extend(events, states, MintInsert(0, "t", NthId(n), SOME_SECRET));
  }

  /** With two mints of one account in progress at once, the account can come to hold fifty-one live tokens. */
  lemma OverlapPassesTheCap() returns (events: seq<Event>, states: seq<State>)
    ensures IsRun(Init, events, states)
    ensures forall i :: 0 <= i <= |events| ==> InFlight(states[i].minting, "u") <= 2
    ensures |LiveIds(states[|events|].table, "u")| == MAX_TOKENS_PER_USER + 1
  {
    events, states := MintMany(49);
    events, states := CheckMore(events, states, 49, 0);
    events, states := CheckMore(events, states, 49, 1);
    events, states := InsertMore(events, states, 49, 2);
    events, states := InsertMore(events, states, 50, 1);
    hide LiveIds, InFlight, Step, Inv;
  }
}
