/**
 The ONLYOFFICE force-save protocol as a step machine.

 Every stretch of code between two awaits is one atomic step. What the environment decides, namely
 which step comes next, what the Document Server answers and which new request id is drawn, is part
 of the event, so a statement about all runs is a statement about every order of delivery.
 */
module ForceSave {
  import opened Common

  datatype Reason = Auto | Close

  type Id = nat
  type Session = string

  /** One record of the `pendingForceSaves` map. `retryTimer` is the handle of the last retry timer that was set. */
  datatype Pending = Pending(
    sessionId: Session, key: string, path: string, reason: Reason,
    retryTimer: Option<nat>, followUp: Option<Reason>)

  /** How far the dispatch of one request has come; a Waiting chain is a retry timer that is still armed. */
  datatype Chain = Queued | Posting(attempt: nat, legacy: bool) | Waiting(attempt: nat)

  /**
   `timeouts` holds the requests whose overall timeout is armed, `issued` every id ever drawn, and
   `dispatches` counts how often each request was handed to the Document Server.
   */
  datatype State = State(
    pending: map<Id, Pending>, bySession: map<Session, Id>,
    timeouts: set<Id>, chains: map<Id, Chain>,
    issued: set<Id>, dispatches: map<Id, nat>)

  /** How many retry delays there are, and so how often a busy document is asked again. */
  const MAX_RETRIES: nat := 4

  datatype Answer = Response(status: int, code: int) | Threw

  /** What one Document Server callback amounted to, once its own awaits are over. */
  datatype Callback = Callback(status: int, hasUrl: bool, threw: bool, userdata: Option<Id>)

  datatype Event =
    | ForceSaveRoute(sessionId: Session, key: string, path: string, reason: Reason)
    | SessionEndRoute(sessionId: Session, key: string, path: string, flush: bool)
    | RunQueued(id: Id)
    | RetryFires(id: Id)
    | Answered(id: Id, answer: Answer)
    | TimeoutFires(id: Id)
    | CallbackArrives(callback: Callback)

  const Init := State(map[], map[], {}, map[], {}, map[])

  function Enqueue(st: State, sessionId: Session, key: string, path: string, reason: Reason, id: Id): State {
    State(
      st.pending[id := Pending(sessionId, key, path, reason, None, None)],
      st.bySession[sessionId := id],
      st.timeouts + {id},
      st.chains[id := Queued],
      st.issued + {id},
      st.dispatches[id := 0])
  }

  /** The maps and timers once a pending request has been taken out, before any follow-up. */
  function Remove(st: State, id: Id): State
    requires id in st.pending
  {
    var p := st.pending[id];
    st.(pending := st.pending - {id},
        bySession := if p.sessionId in st.bySession && st.bySession[p.sessionId] == id
                     then st.bySession - {p.sessionId} else st.bySession,
        timeouts := st.timeouts - {id},
        chains := if p.retryTimer.Some? && id in st.chains && st.chains[id] == Waiting(p.retryTimer.value)
                  then st.chains - {id} else st.chains)
  }

  function Finish(st: State, id: Option<Id>, drawn: Id): State {
    if id.None? || id.value !in st.pending then st
    else
      var p := st.pending[id.value];
      var removed := Remove(st, id.value);
      if p.followUp.Some? then Enqueue(removed, p.sessionId, p.key, p.path, p.followUp.value, drawn)
      else removed
  }

  function Dispatch(st: State, id: Id, attempt: nat): State {
    st.(chains := st.chains[id := Posting(attempt, false)],
        dispatches := st.dispatches[id := (if id in st.dispatches then st.dispatches[id] else 0) + 1])
  }

  datatype Verdict = Repost | Accepted | Retry | Refused

  /** What an answer to a post means; a busy document is asked again only while the request is pending. */
  function VerdictOf(answer: Answer, attempt: nat, legacy: bool): Verdict {
    match answer
    case Threw => Refused
    case Response(status, code) =>
      if status == 404 && !legacy then Repost
      else if 200 <= status < 300 && code == 0 then Accepted
      else if code == 4 && attempt < MAX_RETRIES then Retry
      else Refused
  }

  function EndChain(st: State, id: Id): State {
    st.(chains := st.chains - {id})
  }

  function ArmRetry(st: State, id: Id, attempt: nat): State
    requires id in st.pending
  {
    st.(pending := st.pending[id := st.pending[id].(retryTimer := Some(attempt))],
        chains := st.chains[id := Waiting(attempt)])
  }

  function OnAnswer(st: State, id: Id, answer: Answer, drawn: Id): State
    requires id in st.chains && st.chains[id].Posting?
  {
    var Posting(attempt, legacy) := st.chains[id];
    match VerdictOf(answer, attempt, legacy)
    case Repost => st.(chains := st.chains[id := Posting(attempt, true)])
    case Accepted => EndChain(st, id)
    case Retry => if id in st.pending then ArmRetry(st, id, attempt + 1) else EndChain(st, id)
    case Refused => Finish(EndChain(st, id), Some(id), drawn)
  }

  function OnForceSave(st: State, s: Session, key: string, path: string, reason: Reason, drawn: Id): State {
    if s in st.bySession && st.bySession[s] in st.pending then
      var id := st.bySession[s];
      if reason == Close && st.pending[id].reason == Auto
      then st.(pending := st.pending[id := st.pending[id].(followUp := Some(Close))])
      else st
    else Enqueue(st, s, key, path, reason, drawn)
  }

  /** Joins whatever is pending, of either reason, without asking for a follow-up. */
  function OnSessionEnd(st: State, s: Session, key: string, path: string, flush: bool, drawn: Id): State {
    if !flush || s in st.bySession then st else Enqueue(st, s, key, path, Close, drawn)
  }

  /** Which request a callback finishes, if any. */
  function FinishedBy(c: Callback): Option<Id> {
    if c.threw || c.status == 7 || c.status == 6 || (c.status == 2 && c.hasUrl) then c.userdata else None
  }

  predicate Enabled(st: State, e: Event) {
    match e
    case RunQueued(id) => id in st.chains && st.chains[id].Queued?
    case RetryFires(id) => id in st.chains && st.chains[id].Waiting?
    case Answered(id, _) => id in st.chains && st.chains[id].Posting?
    case TimeoutFires(id) => id in st.timeouts
    case _ => true
  }

  function Step(st: State, e: Event, drawn: Id): State
    requires Enabled(st, e)
  {
    match e
    case ForceSaveRoute(s, key, path, reason) => OnForceSave(st, s, key, path, reason, drawn)
    case SessionEndRoute(s, key, path, flush) => OnSessionEnd(st, s, key, path, flush, drawn)
    case RunQueued(id) => Dispatch(st, id, 0)
    case RetryFires(id) => Dispatch(st, id, st.chains[id].attempt)
    case Answered(id, answer) => OnAnswer(st, id, answer, drawn)
    case TimeoutFires(id) => Finish(st.(timeouts := st.timeouts - {id}), Some(id), drawn)
    case CallbackArrives(c) => Finish(st, FinishedBy(c), drawn)
  }

  // ----- What every step keeps

  ghost predicate MapsInverse(st: State) {
    && (forall id :: id in st.pending ==>
          st.pending[id].sessionId in st.bySession && st.bySession[st.pending[id].sessionId] == id)
    && (forall s :: s in st.bySession ==>
          st.bySession[s] in st.pending && st.pending[st.bySession[s]].sessionId == s)
  }

  /** Every pending request still has its timeout armed; nothing is known of an id that was never drawn. */
  ghost predicate Accounted(st: State) {
    && st.timeouts == st.pending.Keys
    && st.pending.Keys <= st.issued
    && st.chains.Keys <= st.issued
    && st.dispatches.Keys == st.issued
  }

  /** Only an automatic save carries a follow-up, and what it carries is a close. */
  ghost predicate FollowUpsAreCloses(st: State) {
    forall id :: id in st.pending && st.pending[id].followUp.Some? ==>
      st.pending[id].reason == Auto && st.pending[id].followUp == Some(Close)
  }

  /** The dispatch count agrees with the attempt number, and an armed retry belongs to a pending request. */
  ghost predicate ChainsCounted(st: State)
    requires st.dispatches.Keys == st.issued && st.chains.Keys <= st.issued
  {
    && (forall id :: id in st.issued ==> st.dispatches[id] <= 1 + MAX_RETRIES)
    && (forall id :: id in st.chains ==>
          match st.chains[id]
          case Queued => st.dispatches[id] == 0
          case Posting(n, _) => n <= MAX_RETRIES && st.dispatches[id] == n + 1
          case Waiting(n) => n <= MAX_RETRIES && st.dispatches[id] == n
                             && id in st.pending && st.pending[id].retryTimer == Some(n))
  }

  ghost predicate Inv(st: State) {
    MapsInverse(st) && Accounted(st) && FollowUpsAreCloses(st) && ChainsCounted(st)
  }

  lemma EnqueueKeepsInv(st: State, s: Session, key: string, path: string, reason: Reason, drawn: Id)
    requires Inv(st) && drawn !in st.issued && s !in st.bySession
    ensures Inv(Enqueue(st, s, key, path, reason, drawn))
  {
    EnqueueKeepsMaps(st, s, key, path, reason, drawn);
    EnqueueKeepsFollowUps(st, s, key, path, reason, drawn);
    EnqueueKeepsCounts(st, s, key, path, reason, drawn);
    hide MapsInverse, FollowUpsAreCloses, ChainsCounted, Enqueue;
  }

  lemma EnqueueKeepsFollowUps(st: State, s: Session, key: string, path: string, reason: Reason, drawn: Id)
    requires FollowUpsAreCloses(st)
    ensures FollowUpsAreCloses(Enqueue(st, s, key, path, reason, drawn))
  {
  }

  lemma EnqueueKeepsCounts(st: State, s: Session, key: string, path: string, reason: Reason, drawn: Id)
    requires Accounted(st) && ChainsCounted(st) && drawn !in st.issued
    ensures Accounted(Enqueue(st, s, key, path, reason, drawn)) && ChainsCounted(Enqueue(st, s, key, path, reason, drawn))
  {
  }

  lemma EnqueueKeepsMaps(st: State, s: Session, key: string, path: string, reason: Reason, drawn: Id)
    requires MapsInverse(st) && drawn !in st.pending && s !in st.bySession
    ensures MapsInverse(Enqueue(st, s, key, path, reason, drawn))
  {
  }

  lemma RemoveKeepsInv(st: State, id: Id)
    requires Inv(st) && id in st.pending
    ensures Inv(Remove(st, id)) && st.pending[id].sessionId !in Remove(st, id).bySession
  {
    var r := Remove(st, id);
    assert r.pending.Keys == st.pending.Keys - {id};
  }

  lemma FinishKeepsInv(st: State, id: Option<Id>, drawn: Id)
    requires Inv(st) && drawn !in st.issued
    ensures Inv(Finish(st, id, drawn))
  {
    if id.Some? && id.value in st.pending {
      RemoveKeepsInv(st, id.value);
      var p := st.pending[id.value];
      if p.followUp.Some? {
        EnqueueKeepsInv(Remove(st, id.value), p.sessionId, p.key, p.path, p.followUp.value, drawn);
      }
    }
  }

  /** A timeout that fires is spent; finishing then disarms it, so the two orders agree. */
  lemma TimeoutIsFinish(st: State, id: Id, drawn: Id)
    requires Inv(st) && id in st.timeouts
    ensures Finish(st.(timeouts := st.timeouts - {id}), Some(id), drawn) == Finish(st, Some(id), drawn)
  {
    var spent := st.(timeouts := st.timeouts - {id});
    assert Remove(spent, id) == Remove(st, id);
  }

  lemma DispatchKeepsInv(st: State, id: Id, attempt: nat)
    requires Inv(st) && id in st.chains && attempt <= MAX_RETRIES
    requires st.chains[id] == (if attempt == 0 then Queued else Waiting(attempt)) || st.chains[id] == Waiting(attempt)
    ensures Inv(Dispatch(st, id, attempt))
  {
  }

  lemma JoinKeepsInv(st: State, id: Id)
    requires Inv(st) && id in st.pending && st.pending[id].reason == Auto
    ensures Inv(st.(pending := st.pending[id := st.pending[id].(followUp := Some(Close))]))
  {
  }

  lemma EndingChainKeepsInv(st: State, id: Id)
    requires Inv(st)
    ensures Inv(EndChain(st, id))
  {
  }

  lemma RepostKeepsInv(st: State, id: Id, attempt: nat)
    requires Inv(st) && id in st.chains && st.chains[id] == Posting(attempt, false)
    ensures Inv(st.(chains := st.chains[id := Posting(attempt, true)]))
  {
  }

  lemma RetryKeepsInv(st: State, id: Id, attempt: nat)
    requires Inv(st) && id in st.chains && st.chains[id].Posting? && st.chains[id].attempt == attempt
    requires attempt < MAX_RETRIES && id in st.pending
    ensures Inv(ArmRetry(st, id, attempt + 1))
  {
    var after := ArmRetry(st, id, attempt + 1);
    assert after.pending.Keys == st.pending.Keys && after.chains.Keys == st.chains.Keys;
    RetryKeepsMaps(st, id, attempt + 1);
    RetryKeepsCounts(st, id, attempt);
    hide MapsInverse, ChainsCounted;
  }

  lemma RetryKeepsMaps(st: State, id: Id, attempt: nat)
    requires MapsInverse(st) && id in st.pending
    ensures MapsInverse(ArmRetry(st, id, attempt))
  {
  }

  lemma RetryKeepsCounts(st: State, id: Id, attempt: nat)
    requires Accounted(st) && ChainsCounted(st)
    requires id in st.chains && st.chains[id].Posting? && st.chains[id].attempt == attempt
    requires attempt < MAX_RETRIES && id in st.pending
    ensures var after := ArmRetry(st, id, attempt + 1);
            after.dispatches.Keys == after.issued && after.chains.Keys <= after.issued && ChainsCounted(after)
  {
  }

  lemma RetryAnswerKeepsInv(st: State, id: Id, answer: Answer, drawn: Id)
    requires Inv(st) && id in st.chains && st.chains[id].Posting? && drawn !in st.issued
    requires VerdictOf(answer, st.chains[id].attempt, st.chains[id].legacy) == Retry
    ensures Inv(OnAnswer(st, id, answer, drawn))
  {
    hide Inv, VerdictOf, ArmRetry, EndChain, Finish;
    RetryIsBelowMost(answer, st.chains[id].attempt, st.chains[id].legacy);
    if id in st.pending {
      RetryKeepsInv(st, id, st.chains[id].attempt);
    } else {
      EndingChainKeepsInv(st, id);
    }
  }

  lemma RetryIsBelowMost(answer: Answer, attempt: nat, legacy: bool)
    requires VerdictOf(answer, attempt, legacy) == Retry
    ensures attempt < MAX_RETRIES
  {
  }

  lemma AnswerKeepsInv(st: State, id: Id, answer: Answer, drawn: Id)
    requires Inv(st) && id in st.chains && st.chains[id].Posting? && drawn !in st.issued
    ensures Inv(OnAnswer(st, id, answer, drawn))
  {
    var Posting(attempt, legacy) := st.chains[id];
    match VerdictOf(answer, attempt, legacy)
    case Repost => RepostKeepsInv(st, id, attempt);
    case Accepted => EndingChainKeepsInv(st, id);
    case Retry => RetryAnswerKeepsInv(st, id, answer, drawn);
    case Refused =>
      EndingChainKeepsInv(st, id);
      FinishKeepsInv(EndChain(st, id), Some(id), drawn);
  }

  lemma StepKeepsInv(st: State, e: Event, drawn: Id)
    requires Inv(st) && Enabled(st, e) && drawn !in st.issued
    ensures Inv(Step(st, e, drawn))
  {
    match e
    case ForceSaveRoute(s, key, path, reason) =>
      if s in st.bySession {
        if reason == Close && st.pending[st.bySession[s]].reason == Auto { JoinKeepsInv(st, st.bySession[s]); }
      } else { EnqueueKeepsInv(st, s, key, path, reason, drawn); }
    case SessionEndRoute(s, key, path, flush) =>
      if s !in st.bySession { EnqueueKeepsInv(st, s, key, path, Close, drawn); }
    case RunQueued(id) => DispatchKeepsInv(st, id, 0);
    case RetryFires(id) => DispatchKeepsInv(st, id, st.chains[id].attempt);
    case Answered(id, answer) => AnswerKeepsInv(st, id, answer, drawn);
    case TimeoutFires(id) =>
      TimeoutIsFinish(st, id, drawn);
      FinishKeepsInv(st, Some(id), drawn);
    case CallbackArrives(c) => FinishKeepsInv(st, FinishedBy(c), drawn);
  }

  /** Ids are only ever added: no step forgets one, and only the one it drew can become pending. */
  lemma StepAddsOnlyDrawn(st: State, e: Event, drawn: Id)
    requires Enabled(st, e)
    ensures st.issued <= Step(st, e, drawn).issued
    ensures Step(st, e, drawn).pending.Keys <= st.pending.Keys + {drawn}
  {
  }

  // ----- Runs

  datatype Action = Action(event: Event, drawn: Id)

  /** The states a run goes through from `st`, one more than it has actions. */
  ghost predicate IsRun(st: State, actions: seq<Action>, states: seq<State>) {
    && |states| == |actions| + 1
    && states[0] == st
    && forall i :: 0 <= i < |actions| ==>
         && Enabled(states[i], actions[i].event)
         && actions[i].drawn !in states[i].issued
         && states[i + 1] == Step(states[i], actions[i].event, actions[i].drawn)
  }

  /** The two maps are inverse, and every request is dispatched at most five times, in every state of every run. */
  lemma {:induction false} RunKeepsInv(st: State, actions: seq<Action>, states: seq<State>, k: nat)
    requires Inv(st) && IsRun(st, actions, states) && k <= |actions|
    ensures Inv(states[k])
    ensures forall id :: id in states[k].dispatches ==> states[k].dispatches[id] <= 5
  {
    if k > 0 {
      RunKeepsInv(st, actions, states, k - 1);
      StepKeepsInv(states[k - 1], actions[k - 1].event, actions[k - 1].drawn);
    }
  }

  ghost predicate Done(st: State, id: Id) { id in st.issued && id !in st.pending }

  /** Which request an event speaks of; the routes speak of a session instead. */
  function Subject(e: Event): Option<Id> {
    match e
    case RunQueued(id) => Some(id)
    case RetryFires(id) => Some(id)
    case Answered(id, _) => Some(id)
    case TimeoutFires(id) => Some(id)
    case CallbackArrives(c) => FinishedBy(c)
    case _ => None
  }

  /** A late timeout, answer, retry or callback for a finished request changes neither map. */
  lemma LateEventChangesNothing(st: State, e: Event, drawn: Id)
    requires Inv(st) && Enabled(st, e)
    requires Subject(e).Some? && Subject(e).value !in st.pending
    ensures Step(st, e, drawn).pending == st.pending
    ensures Step(st, e, drawn).bySession == st.bySession
    ensures Step(st, e, drawn).timeouts == st.timeouts
  {
  }

  /** A finished request is never pending again, whatever comes after. */
  lemma {:induction false} FinishedOnce(st: State, actions: seq<Action>, states: seq<State>, id: Id, i: nat, j: nat)
    requires IsRun(st, actions, states)
    requires i <= j <= |actions|
    requires Done(states[i], id)
    ensures Done(states[j], id)
  {
    hide Step, Enabled;
    if i < j {
      FinishedOnce(st, actions, states, id, i, j - 1);
      StepAddsOnlyDrawn(states[j - 1], actions[j - 1].event, actions[j - 1].drawn);
    }
  }

  // ----- What each event leads to

  /** The route that is not there is asked for under its old name; only the first 404 says so. */
  predicate NotThere(answer: Answer, legacy: bool) { answer.Response? && answer.status == 404 && !legacy }

  predicate Taken(answer: Answer) { answer.Response? && 200 <= answer.status < 300 && answer.code == 0 }

  /** The document is busy and has been asked for its changes fewer than four times again. */
  predicate Busy(answer: Answer, attempt: nat) { answer.Response? && !Taken(answer) && answer.code == 4 && attempt < 4 }

  /** What an answer leads to for a pending request: posted anew, taken, asked again later, or finished. */
  lemma AnswerLeads(st: State, id: Id, answer: Answer, drawn: Id)
    requires Inv(st) && id in st.chains && st.chains[id].Posting? && id in st.pending && drawn !in st.issued
    ensures var Posting(n, legacy) := st.chains[id];
            var after := Step(st, Answered(id, answer), drawn);
            if NotThere(answer, legacy) then after == st.(chains := st.chains[id := Posting(n, true)])
            else if Taken(answer) then after == st.(chains := st.chains - {id})
            else if Busy(answer, n) then
              after == st.(chains := st.chains[id := Waiting(n + 1)], pending := st.pending[id := st.pending[id].(retryTimer := Some(n + 1))])
            else id !in after.pending && id !in after.timeouts && id !in after.chains
  {
  }

  /** For a request that is finished already an answer only ends the chain, or tries the old name. */
  lemma LateAnswerLeads(st: State, id: Id, answer: Answer, drawn: Id)
    requires id in st.chains && st.chains[id].Posting? && id !in st.pending
    ensures var Posting(n, legacy) := st.chains[id];
            Step(st, Answered(id, answer), drawn) ==
            st.(chains := if NotThere(answer, legacy) then st.chains[id := Posting(n, true)] else st.chains - {id})
  {
  }

  /** A request is handed over when it is its turn and when its retry falls due, as often again as it waited. */
  lemma DispatchLeads(st: State, e: Event, drawn: Id)
    requires Inv(st) && Enabled(st, e) && (e.RunQueued? || e.RetryFires?)
    ensures var n := if st.chains[e.id].Waiting? then st.chains[e.id].attempt else 0;
            Step(st, e, drawn) == st.(chains := st.chains[e.id := Posting(n, false)], dispatches := st.dispatches[e.id := n + 1])
  {
  }

  /** Whether an event finishes this request: its timeout, an answer that is none of the other three, or one of the callbacks that do. */
  predicate Finishes(st: State, e: Event, id: Id) {
    match e
    case TimeoutFires(t) => t == id
    case Answered(a, answer) =>
      a == id && id in st.chains && st.chains[id].Posting?
      && !NotThere(answer, st.chains[id].legacy) && !Taken(answer) && !Busy(answer, st.chains[id].attempt)
    case CallbackArrives(c) => c.userdata == Some(id) && (c.threw || c.status == 6 || c.status == 7 || (c.status == 2 && c.hasUrl))
    case _ => false
  }

  /** What is left once a pending request is finished: a retry that waits goes with it, and a close that is to follow takes its place. */
  ghost predicate FinishedInto(st: State, id: Id, drawn: Id, after: State)
    requires id in st.pending
  {
    var p := st.pending[id];
    var chains := if id in st.chains && st.chains[id].Waiting? then st.chains - {id} else st.chains;
    if p.followUp.None? then
      after == st.(pending := st.pending - {id}, bySession := st.bySession - {p.sessionId}, timeouts := st.timeouts - {id}, chains := chains)
    else
      after == State((st.pending - {id})[drawn := Pending(p.sessionId, p.key, p.path, Close, None, None)],
                     st.bySession[p.sessionId := drawn], st.timeouts - {id} + {drawn}, chains[drawn := Queued],
                     st.issued + {drawn}, st.dispatches[drawn := 0])
  }

  lemma FinishLeads(st: State, id: Id, drawn: Id)
    requires Inv(st) && drawn !in st.issued
    ensures id in st.pending ==> FinishedInto(st, id, drawn, Finish(st, Some(id), drawn))
    ensures id !in st.pending ==> Finish(st, Some(id), drawn) == st
  {
    if id in st.pending && st.pending[id].followUp.Some? { FollowUpTakesOver(st, id, drawn); }
  }

  /** A pending request stays pending until an event finishes it; an answer that does ends its chain first. */
  lemma PendingUntilFinished(st: State, e: Event, drawn: Id, id: Id)
    requires Inv(st) && Enabled(st, e) && id in st.pending && drawn !in st.issued
    ensures id !in Step(st, e, drawn).pending <==> Finishes(st, e, id)
    ensures Finishes(st, e, id) ==> FinishedInto(if e.Answered? then EndChain(st, id) else st, id, drawn, Step(st, e, drawn))
  {
    match e
    case TimeoutFires(t) =>
      TimeoutIsFinish(st, t, drawn);
      FinishLeads(st, t, drawn);
    case CallbackArrives(c) => if FinishedBy(c).Some? { FinishLeads(st, FinishedBy(c).value, drawn); }
    case Answered(a, answer) => AnswerFinishes(st, a, answer, drawn, id);
    case _ => hide Inv;
  }

  lemma AnswerFinishes(st: State, a: Id, answer: Answer, drawn: Id, id: Id)
    requires Inv(st) && Enabled(st, Answered(a, answer)) && id in st.pending && drawn !in st.issued
    ensures id !in OnAnswer(st, a, answer, drawn).pending <==> Finishes(st, Answered(a, answer), id)
    ensures Finishes(st, Answered(a, answer), id) ==> FinishedInto(EndChain(st, id), id, drawn, OnAnswer(st, a, answer, drawn))
  {
    var Posting(attempt, legacy) := st.chains[a];
    EndingChainKeepsInv(st, a);
    FinishLeads(EndChain(st, a), a, drawn);
    if VerdictOf(answer, attempt, legacy) == Refused {
      if a == id { hide FinishedInto, Inv; } else { hide Inv; }
    } else {
      hide FinishedInto, Finish, Inv;
    }
  }

  /** What the two routes do: a session without a pending request gets one, and a close asked of a save in progress is to follow it. */
  lemma RequestsEnter(st: State, e: Event, drawn: Id)
    requires Inv(st) && drawn !in st.issued && (e.ForceSaveRoute? || e.SessionEndRoute?)
    ensures var s, after := e.sessionId, Step(st, e, drawn);
            var reason := if e.ForceSaveRoute? then e.reason else Close;
            if e.SessionEndRoute? && (!e.flush || s in st.bySession) then after == st
            else if s !in st.bySession then
              && after.pending == st.pending[drawn := Pending(s, e.key, e.path, reason, None, None)]
              && after.bySession == st.bySession[s := drawn] && after.timeouts == st.timeouts + {drawn}
              && after.chains == st.chains[drawn := Queued] && after.dispatches == st.dispatches[drawn := 0]
            else
              var id := st.bySession[s];
              after == if reason == Close && st.pending[id].reason == Auto
                       then st.(pending := st.pending[id := st.pending[id].(followUp := Some(Close))]) else st
  {
  }

  // ----- A close is not lost

  ghost predicate CloseOwed(st: State, s: Session) {
    && s in st.bySession
    && st.bySession[s] in st.pending
    && var p := st.pending[st.bySession[s]];
       p.sessionId == s && (p.reason == Close || p.followUp == Some(Close))
  }

  ghost predicate FinishesClose(st: State, after: State, s: Session) {
    exists id :: id in st.pending && st.pending[id].sessionId == s && st.pending[id].reason == Close
                 && id !in after.pending
  }

  predicate IsRequestOf(e: Event, s: Session) {
    (e.ForceSaveRoute? || e.SessionEndRoute?) && e.sessionId == s
  }

  lemma AcceptedCloseIsOwed(st: State, e: Event, drawn: Id)
    requires Inv(st) && drawn !in st.issued
    requires e.ForceSaveRoute? && e.reason == Close
    ensures CloseOwed(Step(st, e, drawn), e.sessionId)
  {
  }

  /** When an automatic save with a follow-up finishes, the close takes its place with the same session, key and path. */
  lemma FollowUpTakesOver(st: State, id: Id, drawn: Id)
    requires Inv(st) && id in st.pending && st.pending[id].followUp.Some? && drawn !in st.issued
    ensures var p, after := st.pending[id], Finish(st, Some(id), drawn);
            && id !in after.pending
            && after.pending == (st.pending - {id})[drawn := Pending(p.sessionId, p.key, p.path, Close, None, None)]
            && after.bySession == st.bySession[p.sessionId := drawn]
            && after.chains[drawn] == Queued && after.dispatches[drawn] == 0
  {
    var p := st.pending[id];
    assert (st.bySession - {p.sessionId})[p.sessionId := drawn] == st.bySession[p.sessionId := drawn];
  }

  lemma OwedUntilFinished(st: State, e: Event, drawn: Id, s: Session)
    requires Inv(st) && Enabled(st, e) && drawn !in st.issued
    requires CloseOwed(st, s)
    requires !FinishesClose(st, Step(st, e, drawn), s)
    ensures CloseOwed(Step(st, e, drawn), s)
  {
    match e
    case TimeoutFires(id) =>
      TimeoutIsFinish(st, id, drawn);
      OwedThroughFinish(st, id, drawn, s);
    case CallbackArrives(c) =>
      if FinishedBy(c).Some? && FinishedBy(c).value in st.pending {
        OwedThroughFinish(st, FinishedBy(c).value, drawn, s);
      }
    case Answered(id, answer) =>
      if id in st.pending { OwedThroughAnswer(st, id, answer, drawn, s); }
    case ForceSaveRoute(_, _, _, _) => RoutesKeepOwed(st, e, drawn, s);
    case SessionEndRoute(_, _, _, _) => RoutesKeepOwed(st, e, drawn, s);
    case _ => hide Inv;
  }

  lemma RoutesKeepOwed(st: State, e: Event, drawn: Id, s: Session)
    requires MapsInverse(st) && drawn !in st.pending && (e.ForceSaveRoute? || e.SessionEndRoute?)
    ensures CloseOwed(st, s) ==> CloseOwed(Step(st, e, drawn), s)
    ensures !CloseOwed(st, s) && !IsRequestOf(e, s) ==> !CloseOwed(Step(st, e, drawn), s)
    ensures !FinishesClose(st, Step(st, e, drawn), s)
  {
  }

  lemma OwedThroughFinish(st: State, id: Id, drawn: Id, s: Session)
    requires Inv(st) && drawn !in st.issued && id in st.pending
    requires CloseOwed(st, s)
    requires !FinishesClose(st, Finish(st, Some(id), drawn), s)
    ensures CloseOwed(Finish(st, Some(id), drawn), s)
  {
    var after := Finish(st, Some(id), drawn);
    if id == st.bySession[s] {
      assert id !in after.pending;
      FollowUpTakesOver(st, id, drawn);
    }
  }

  lemma OwedThroughAnswer(st: State, id: Id, answer: Answer, drawn: Id, s: Session)
    requires Inv(st) && drawn !in st.issued && id in st.pending && id in st.chains && st.chains[id].Posting?
    requires CloseOwed(st, s)
    requires !FinishesClose(st, OnAnswer(st, id, answer, drawn), s)
    ensures CloseOwed(OnAnswer(st, id, answer, drawn), s)
  {
    EndingChainKeepsInv(st, id);
    match VerdictOf(answer, st.chains[id].attempt, st.chains[id].legacy)
    case Refused => OwedThroughFinish(EndChain(st, id), id, drawn, s);
    case _ =>
  }

  /**
   A close accepted by the force-save route is pending, or follows the pending automatic save, in every
   later state up to the one in which a close of that session finishes.
   */
  lemma {:induction false} CloseNeverLost(
    st: State, actions: seq<Action>, states: seq<State>, i: nat, j: nat, s: Session)
    requires Inv(st) && IsRun(st, actions, states)
    requires i < j <= |actions|
    requires actions[i].event.ForceSaveRoute? && actions[i].event.sessionId == s && actions[i].event.reason == Close
    requires forall k :: i < k < j ==> !FinishesClose(states[k], states[k + 1], s)
    ensures CloseOwed(states[j], s)
  {
    hide Step, Inv, CloseOwed, FinishesClose, Enabled;
    if j == i + 1 {
      RunKeepsInv(st, actions, states, i);
      AcceptedCloseIsOwed(states[i], actions[i].event, actions[i].drawn);
    } else {
      CloseNeverLost(st, actions, states, i, j - 1, s);
      RunKeepsInv(st, actions, states, j - 1);
      assert !FinishesClose(states[j - 1], states[j - 1 + 1], s);
      OwedUntilFinished(states[j - 1], actions[j - 1].event, actions[j - 1].drawn, s);
    }
  }

  /**
   The session-end route is different: it joins a pending automatic save and asks for nothing after it.
   The close is owed afterwards if and only if it was flushed and what it joined was not a bare
   automatic save, or something already owed it.
   */
  lemma SessionEndOwes(st: State, s: Session, key: string, path: string, flush: bool, drawn: Id)
    requires Inv(st) && drawn !in st.issued
    ensures CloseOwed(OnSessionEnd(st, s, key, path, flush, drawn), s) <==>
            if s in st.bySession
            then st.pending[st.bySession[s]].reason == Close || st.pending[st.bySession[s]].followUp.Some?
            else flush
  {
  }

  /** A close that is not owed becomes owed by a request of its session only. */
  lemma UnowedUntilAsked(st: State, e: Event, drawn: Id, s: Session)
    requires Inv(st) && Enabled(st, e) && drawn !in st.issued
    requires !CloseOwed(st, s) && !IsRequestOf(e, s)
    ensures !CloseOwed(Step(st, e, drawn), s) && !FinishesClose(st, Step(st, e, drawn), s)
  {
    match e
    case TimeoutFires(id) =>
      TimeoutIsFinish(st, id, drawn);
      UnowedThroughFinish(st, Some(id), drawn, s);
    case CallbackArrives(c) => UnowedThroughFinish(st, FinishedBy(c), drawn, s);
    case Answered(id, answer) => UnowedThroughAnswer(st, id, answer, drawn, s);
    case ForceSaveRoute(_, _, _, _) => RoutesKeepOwed(st, e, drawn, s);
    case SessionEndRoute(_, _, _, _) => RoutesKeepOwed(st, e, drawn, s);
    case _ => hide Inv;
  }

  lemma UnowedThroughAnswer(st: State, id: Id, answer: Answer, drawn: Id, s: Session)
    requires Inv(st) && drawn !in st.issued && id in st.chains && st.chains[id].Posting? && !CloseOwed(st, s)
    ensures !CloseOwed(OnAnswer(st, id, answer, drawn), s) && !FinishesClose(st, OnAnswer(st, id, answer, drawn), s)
  {
    EndingChainKeepsInv(st, id);
    UnowedThroughFinish(EndChain(st, id), Some(id), drawn, s);
    hide Finish, VerdictOf, MapsInverse;
  }

  lemma UnowedThroughFinish(st: State, id: Option<Id>, drawn: Id, s: Session)
    requires Inv(st) && drawn !in st.issued && !CloseOwed(st, s)
    ensures !CloseOwed(Finish(st, id, drawn), s) && !FinishesClose(st, Finish(st, id, drawn), s)
  {
    if id.Some? && id.value in st.pending && st.pending[id.value].followUp.Some? { FollowUpTakesOver(st, id.value, drawn); }
  }

  /**
   Where session-end joins an automatic save that carries no follow-up, the close is neither owed nor done in
   any later state, until somebody asks for that session again.
   */
  lemma {:induction false} JoinedCloseIsLost(
    st: State, actions: seq<Action>, states: seq<State>, i: nat, j: nat, s: Session)
    requires Inv(st) && IsRun(st, actions, states) && i < j <= |actions|
    requires actions[i].event.SessionEndRoute? && actions[i].event.sessionId == s
    requires s in states[i].bySession && states[i].bySession[s] in states[i].pending
    requires var p := states[i].pending[states[i].bySession[s]]; p.reason == Auto && p.followUp.None?
    requires forall k :: i < k < j ==> !IsRequestOf(actions[k].event, s)
    ensures !CloseOwed(states[j], s)
    ensures !FinishesClose(states[j - 1], states[j], s)
  {
    if j == i + 1 {
      RunKeepsInv(st, actions, states, i);
      assert states[i + 1] == states[i];
    } else {
      hide Step, Inv, CloseOwed, FinishesClose, Enabled, IsRequestOf;
      JoinedCloseIsLost(st, actions, states, i, j - 1, s);
      RunKeepsInv(st, actions, states, j - 1);
      assert states[j - 1 + 1] == Step(states[j - 1], actions[j - 1].event, actions[j - 1].drawn);
      UnowedUntilAsked(states[j - 1], actions[j - 1].event, actions[j - 1].drawn, s);
    }
  }

  /** A reachable state in which the flush of a session that ends is lost: one automatic save, then the end, then the timeout. */
  lemma SessionEndCanLoseTheClose() returns (actions: seq<Action>, states: seq<State>)
    ensures IsRun(Init, actions, states) && |actions| == 3
    ensures actions[1].event == SessionEndRoute("s", "k", "p", true)
    ensures states[3].pending == map[] && states[3].bySession == map[]
    ensures forall k :: 0 <= k < 3 ==> !FinishesClose(states[k], states[k + 1], "s")
  {
    var e0 := Action(ForceSaveRoute("s", "k", "p", Auto), 0);
    var e1 := Action(SessionEndRoute("s", "k", "p", true), 1);
    var e2 := Action(TimeoutFires(0), 1);
    var s1 := Step(Init, e0.event, 0);
    var s2 := Step(s1, e1.event, 1);
    assert s2 == s1 && 0 in s2.timeouts;
    var s3 := Step(s2, e2.event, 1);
    assert s3.pending == map[] && s3.bySession == map[];
    actions, states := [e0, e1, e2], [Init, s1, s2, s3];
  }

  // ----- The chain ends

  function Work(c: Chain): nat {
    match c
    case Queued => 15
    case Waiting(n) => if n <= 4 then 3 * (4 - n) + 3 else 0
    case Posting(n, legacy) => if n <= 4 then 3 * (4 - n) + (if legacy then 1 else 2) else 0
  }

  /** How many steps about one session's pending request can still come before it has none. */
  function Rank(st: State, s: Session): nat {
    if s in st.bySession && st.bySession[s] in st.pending then
      var id := st.bySession[s];
      1 + (if id in st.chains then Work(st.chains[id]) else 0)
        + (if st.pending[id].followUp.Some? then 17 else 0)
    else 0
  }

  ghost predicate Concerns(st: State, e: Event, s: Session) {
    s in st.bySession && Subject(e) == Some(st.bySession[s])
  }

  lemma FinishLowersRank(st: State, id: Id, drawn: Id)
    requires Inv(st) && id in st.pending && drawn !in st.issued
    ensures forall s :: Rank(Finish(st, Some(id), drawn), s) <= Rank(st, s)
    ensures Rank(Finish(st, Some(id), drawn), st.pending[id].sessionId) < Rank(st, st.pending[id].sessionId)
  {
  }

  lemma AnswerLowersRank(st: State, id: Id, answer: Answer, drawn: Id)
    requires Inv(st) && id in st.chains && st.chains[id].Posting? && id in st.pending && drawn !in st.issued
    ensures forall s :: Rank(OnAnswer(st, id, answer, drawn), s) <= Rank(st, s)
    ensures Rank(OnAnswer(st, id, answer, drawn), st.pending[id].sessionId) < Rank(st, st.pending[id].sessionId)
  {
    match VerdictOf(answer, st.chains[id].attempt, st.chains[id].legacy)
    case Refused =>
      EndingChainKeepsInv(st, id);
      FinishLowersRank(EndChain(st, id), id, drawn);
    case _ =>
  }

  lemma DispatchLowersRank(st: State, id: Id, attempt: nat)
    requires Inv(st) && id in st.chains && attempt <= MAX_RETRIES
    requires st.chains[id] == Waiting(attempt) || (attempt == 0 && st.chains[id] == Queued)
    ensures forall s :: Rank(Dispatch(st, id, attempt), s) <= Rank(st, s)
    ensures id in st.pending ==> Rank(Dispatch(st, id, attempt), st.pending[id].sessionId) < Rank(st, st.pending[id].sessionId)
  {
  }

  lemma RankFalls(st: State, e: Event, drawn: Id, s: Session)
    requires Inv(st) && Enabled(st, e) && drawn !in st.issued
    requires Subject(e).Some?
    ensures Rank(Step(st, e, drawn), s) <= Rank(st, s)
    ensures Concerns(st, e, s) ==> Rank(Step(st, e, drawn), s) < Rank(st, s)
  {
    match e
    case RunQueued(id) => DispatchLowersRank(st, id, 0);
    case RetryFires(id) => DispatchLowersRank(st, id, st.chains[id].attempt);
    case Answered(id, answer) =>
      if id in st.pending { AnswerLowersRank(st, id, answer, drawn); } else { LateAnswerKeepsRank(st, id, answer, drawn); }
    case TimeoutFires(id) =>
      TimeoutIsFinish(st, id, drawn);
      FinishLowersRank(st, id, drawn);
    case CallbackArrives(c) =>
      if FinishedBy(c).value in st.pending { FinishLowersRank(st, FinishedBy(c).value, drawn); }
  }

  lemma LateAnswerKeepsRank(st: State, id: Id, answer: Answer, drawn: Id)
    requires Inv(st) && id in st.chains && st.chains[id].Posting? && id !in st.pending
    ensures forall s :: Rank(OnAnswer(st, id, answer, drawn), s) == Rank(st, s)
    ensures id !in st.bySession.Values
  {
    LateEventChangesNothing(st, Answered(id, answer), drawn);
  }

  ghost function CountConcerning(actions: seq<Action>, states: seq<State>, s: Session): nat
    requires |states| == |actions| + 1
  {
    if actions == [] then 0
    else (if Concerns(states[0], actions[0].event, s) then 1 else 0)
         + CountConcerning(actions[1..], states[1..], s)
  }

  lemma RunTail(st: State, actions: seq<Action>, states: seq<State>)
    requires IsRun(st, actions, states) && actions != []
    ensures IsRun(states[1], actions[1..], states[1..])
  {
    forall i | 0 <= i < |actions[1..]|
      ensures && Enabled(states[1..][i], actions[1..][i].event)
              && actions[1..][i].drawn !in states[1..][i].issued
              && states[1..][i + 1] == Step(states[1..][i], actions[1..][i].event, actions[1..][i].drawn)
    {
      assert actions[1..][i] == actions[i + 1] && states[1..][i] == states[i + 1];
    }
  }

  lemma OtherRoutesKeepRank(st: State, e: Event, drawn: Id, s: Session)
    requires Inv(st) && Enabled(st, e) && drawn !in st.issued
    requires !IsRequestOf(e, s)
    requires Subject(e).None?
    ensures Rank(Step(st, e, drawn), s) == Rank(st, s)
  {
  }

  lemma RankBounded(st: State, s: Session)
    requires Inv(st)
    ensures Rank(st, s) <= 33
  {
  }

  lemma OneStepOfChain(st: State, e: Event, drawn: Id, s: Session)
    requires Inv(st) && Enabled(st, e) && drawn !in st.issued
    requires !IsRequestOf(e, s)
    ensures Rank(Step(st, e, drawn), s) + (if Concerns(st, e, s) then 1 else 0) <= Rank(st, s)
  {
    if Subject(e).Some? { RankFalls(st, e, drawn, s); } else { OtherRoutesKeepRank(st, e, drawn, s); }
  }

  /**
   Between two requests of its own, one session sees at most Rank more steps, and Rank is at most 33:
   two requests of at most five dispatches each, and the finish of each.
   */
  lemma {:induction false} ChainEnds(st: State, actions: seq<Action>, states: seq<State>, s: Session)
    requires Inv(st) && IsRun(st, actions, states)
    requires forall i :: 0 <= i < |actions| ==> !IsRequestOf(actions[i].event, s)
    ensures CountConcerning(actions, states, s) + Rank(states[|actions|], s) <= Rank(st, s) <= 33
    decreases |actions|
  {
    RankBounded(st, s);
    if actions != [] {
      StepKeepsInv(st, actions[0].event, actions[0].drawn);
      RunTail(st, actions, states);
      ChainEnds(states[1], actions[1..], states[1..], s);
      OneStepOfChain(st, actions[0].event, actions[0].drawn, s);
    }
  }

  /** Nothing has to be waited for: at most two timeouts, both already armed, finish an owed close. */
  lemma TimeoutsSettleClose(st: State, s: Session, drawn: Id, drawn': Id)
    requires Inv(st) && CloseOwed(st, s) && drawn !in st.issued
    requires drawn' !in st.issued + {drawn}
    ensures var e := TimeoutFires(st.bySession[s]);
            && Enabled(st, e)
            && var st1 := Step(st, e, drawn);
               || FinishesClose(st, st1, s)
               || (&& CloseOwed(st1, s)
                   && Enabled(st1, TimeoutFires(st1.bySession[s]))
                   && FinishesClose(st1, Step(st1, TimeoutFires(st1.bySession[s]), drawn'), s))
  {
    var id := st.bySession[s];
    TimeoutIsFinish(st, id, drawn);
    StepKeepsInv(st, TimeoutFires(id), drawn);
    var st1 := Step(st, TimeoutFires(id), drawn);
    if st.pending[id].reason == Close {
      assert id !in st1.pending;
    } else {
      FollowUpTakesOver(st, id, drawn);
      TimeoutIsFinish(st1, drawn, drawn');
      assert drawn in st1.pending && drawn !in Step(st1, TimeoutFires(drawn), drawn').pending;
    }
  }
}
