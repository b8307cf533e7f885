/**
 The two maps of the force-save protocol as the server holds them: module state that the routes, the
 timers and the callback change in place. Each method is one atomic stretch of the source and is proved to
 be the step of `ForceSave` of the same name, so what is proved there of all runs holds of this object.
 */
module ForceSaveService {
  import opened Common
  import opened ForceSave

  datatype Reply = Reply(requestId: Id, coalesced: bool, followUp: bool)

  class Service {
    var pendingForceSaves: map<Id, Pending>
    var pendingForceSavesBySession: map<Session, Id>
    // The runtime's own: which timeouts are armed and where each dispatch stands.
    var timeouts: set<Id>
    var chains: map<Id, Chain>
    ghost var issued: set<Id>
    ghost var dispatches: map<Id, nat>

    ghost function View(): State
      reads this
    {
      State(pendingForceSaves, pendingForceSavesBySession, timeouts, chains, issued, dispatches)
    }

    constructor ()
      ensures View() == Init && Inv(View())
    {
      pendingForceSaves, pendingForceSavesBySession := map[], map[];
      timeouts, chains, issued, dispatches := {}, map[], {}, map[];
    }

    /** `drawn` is the fresh identifier that `crypto.randomUUID` answers with. */
    method Enqueue(sessionId: Session, key: string, path: string, reason: Reason, drawn: Id) returns (requestId: Id)
      modifies this
      ensures View() == ForceSave.Enqueue(old(View()), sessionId, key, path, reason, drawn)
      ensures requestId == drawn
    {
      requestId := drawn;
      timeouts := timeouts + {requestId};
      pendingForceSaves := pendingForceSaves[requestId := Pending(sessionId, key, path, reason, None, None)];
      pendingForceSavesBySession := pendingForceSavesBySession[sessionId := requestId];
      chains := chains[requestId := Queued];
      issued := issued + {requestId};
      dispatches := dispatches[requestId := 0];
    }

    method Finish(requestId: Option<Id>, drawn: Id)
      modifies this
      ensures View() == ForceSave.Finish(old(View()), requestId, drawn)
    {
      if requestId.None? { return; }
      var id := requestId.value;
      if id !in pendingForceSaves { return; }
      var pending := pendingForceSaves[id];
      pendingForceSaves := pendingForceSaves - {id};
      if pending.sessionId in pendingForceSavesBySession && pendingForceSavesBySession[pending.sessionId] == id {
        pendingForceSavesBySession := pendingForceSavesBySession - {pending.sessionId};
      }
      timeouts := timeouts - {id};
      if pending.retryTimer.Some? && id in chains && chains[id] == Waiting(pending.retryTimer.value) {
        chains := chains - {id};
      }
      if pending.followUp.Some? {
        var _ := Enqueue(pending.sessionId, pending.key, pending.path, pending.followUp.value, drawn);
      }
    }

    method Post(id: Id, attempt: nat)
      modifies this
      ensures View() == Dispatch(old(View()), id, attempt)
    {
      chains := chains[id := Posting(attempt, false)];
      dispatches := dispatches[id := (if id in dispatches then dispatches[id] else 0) + 1];
    }

    method ImmediateRuns(id: Id)
      requires Inv(View()) && Enabled(View(), RunQueued(id))
      modifies this
      ensures View() == Step(old(View()), RunQueued(id), 0) && Inv(View())
    {
      DispatchKeepsInv(View(), id, 0);
      Post(id, 0);
    }

    method RetryTimerFires(id: Id)
      requires Inv(View()) && Enabled(View(), RetryFires(id))
      modifies this
      ensures View() == Step(old(View()), RetryFires(id), 0) && Inv(View())
    {
      DispatchKeepsInv(View(), id, chains[id].attempt);
      Post(id, chains[id].attempt);
    }

    method Answer(id: Id, answer: ForceSave.Answer, drawn: Id)
      requires id in chains && chains[id].Posting?
      modifies this
      ensures View() == OnAnswer(old(View()), id, answer, drawn)
    {
      var Posting(attempt, legacy) := chains[id];
      if answer.Response? && answer.status == 404 && !legacy {
        chains := chains[id := Posting(attempt, true)];
        return;
      }
      chains := chains - {id};
      if answer.Response? {
        if 200 <= answer.status < 300 && answer.code == 0 { return; }
        if answer.code == 4 && attempt < MAX_RETRIES {
          if id !in pendingForceSaves { return; }
          pendingForceSaves := pendingForceSaves[id := pendingForceSaves[id].(retryTimer := Some(attempt + 1))];
          chains := chains[id := Waiting(attempt + 1)];
          assert View().chains == OnAnswer(old(View()), id, answer, drawn).chains;
          return;
        }
      }
      Finish(Some(id), drawn);
    }

    method AnswerArrives(id: Id, answer: ForceSave.Answer, drawn: Id)
      requires Inv(View()) && Enabled(View(), Answered(id, answer)) && drawn !in issued
      modifies this
      ensures View() == Step(old(View()), Answered(id, answer), drawn) && Inv(View())
    {
      AnswerKeepsInv(View(), id, answer, drawn);
      Answer(id, answer, drawn);
    }

    method TimeoutRuns(id: Id, drawn: Id)
      requires Inv(View()) && Enabled(View(), TimeoutFires(id)) && drawn !in issued
      modifies this
      ensures View() == Step(old(View()), TimeoutFires(id), drawn) && Inv(View())
    {
      StepKeepsInv(View(), TimeoutFires(id), drawn);
      timeouts := timeouts - {id};
      Finish(Some(id), drawn);
    }

    method CallbackRuns(c: Callback, drawn: Id)
      requires Inv(View()) && drawn !in issued
      modifies this
      ensures View() == Step(old(View()), CallbackArrives(c), drawn) && Inv(View())
    {
      StepKeepsInv(View(), CallbackArrives(c), drawn);
      if c.threw || c.status == 7 {
        Finish(c.userdata, drawn);
      } else if (c.status == 2 || c.status == 6) && c.hasUrl {
        Finish(c.userdata, drawn);
      } else if c.status == 6 {
        Finish(c.userdata, drawn);
      }
    }

    /** What the route does once the caller's rights and session have been checked. */
    method ForceSaveRouteRuns(sessionId: Session, key: string, path: string, reason: Reason, drawn: Id)
      returns (r: Reply)
      requires Inv(View()) && drawn !in issued
      modifies this
      ensures View() == Step(old(View()), ForceSaveRoute(sessionId, key, path, reason), drawn) && Inv(View())
      ensures r.coalesced <==> sessionId in old(pendingForceSavesBySession)
      ensures r.requestId in pendingForceSaves && pendingForceSaves[r.requestId].sessionId == sessionId
      ensures reason == Close ==> CloseOwed(View(), sessionId)
      ensures r.followUp <==> && reason == Close && r.coalesced && r.requestId in old(pendingForceSaves)
                              && old(pendingForceSaves)[r.requestId].reason == Auto
      ensures r.followUp ==> pendingForceSaves[r.requestId].followUp == Some(Close)
    {
      StepKeepsInv(View(), ForceSaveRoute(sessionId, key, path, reason), drawn);
      if sessionId in pendingForceSavesBySession && pendingForceSavesBySession[sessionId] in pendingForceSaves {
        var id := pendingForceSavesBySession[sessionId];
        var followUp := reason == Close && pendingForceSaves[id].reason == Auto;
        if followUp {
          pendingForceSaves := pendingForceSaves[id := pendingForceSaves[id].(followUp := Some(Close))];
        }
        return Reply(id, true, followUp);
      }
      var id := Enqueue(sessionId, key, path, reason, drawn);
      return Reply(id, false, false);
    }

    /** What the route does once the session has been found; `flush` says there is a server and the caller may write. */
    method SessionEndRouteRuns(sessionId: Session, key: string, path: string, flush: bool, drawn: Id)
      returns (requestId: Option<Id>)
      requires Inv(View()) && drawn !in issued
      modifies this
      ensures View() == Step(old(View()), SessionEndRoute(sessionId, key, path, flush), drawn) && Inv(View())
      ensures requestId.Some? <==> flush
      ensures flush ==> sessionId in pendingForceSavesBySession && requestId == Some(pendingForceSavesBySession[sessionId])
    {
      StepKeepsInv(View(), SessionEndRoute(sessionId, key, path, flush), drawn);
      requestId := None;
      if flush {
        if sessionId in pendingForceSavesBySession {
          requestId := Some(pendingForceSavesBySession[sessionId]);
        } else {
          var id := Enqueue(sessionId, key, path, Close, drawn);
          requestId := Some(id);
        }
      }
    }
  }
}
