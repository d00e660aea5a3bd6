# Verification of the Keycloak console's state machines

Models, in Dafny, of the parts of Keycloak's JavaScript client and admin console in which something can
go wrong between two lines of code, and proofs of what they keep.

- **The OIDC client adapter** (`TokenState`, `Adapter`, `AdapterSafety`, `AdapterRuns`, `AdapterOutcomes`,
  `AdapterRequests`, `AdapterCallbacks`, `AdapterLiveness`, `AdapterCalls`, `AdapterTokens`, `AdapterNotices`,
  `KeycloakClient`).
  The adapter couples a queue of token refreshes with a list of callers that wait for the login-status
  iframe. `Adapter` is the state machine over its events: calls of the application, answers, iframe
  messages, timers, promise callbacks. The application's handlers are part of the events, so the proofs
  cover calls made from within a handler. `AdapterSafety` proves what one event keeps, `AdapterRuns` what
  holds over all runs, `AdapterOutcomes` how the single call and the single callback end, `AdapterRequests`
  which requests carry a refresh token, `AdapterCallbacks` how callbacks' promises end and when a nonce gets past its
  check, `AdapterLiveness` that everyone is answered, `AdapterCalls` what becomes of a call by its argument,
  `AdapterTokens` which tokens each event leaves, `AdapterNotices` that each notice is followed by its handler's calls. `KeycloakClient` is the
  object with its fields: each method is proved to do what the state machine says, and those that the page calls
  to keep the object valid.
- **Callback addresses and the login-state store** (`CallbackUrl`, `CallbackStorage`, `CallbackReading`):
  reading an answer off the address, rewriting the address, and the one-shot store of login states.
- **Base64url and UTF-8** (`Base64Url`, `Utf8`, `EncodingStandards`): the encoder of the PKCE challenge and the decoder
  of tokens (RFC 4648, section 5; RFC 7515, Appendix C; RFC 3629, section 3), and both against their standards.
- **The authentication-flow table** (`ExecutionLevels`, `ExecutionList`, `DropClassification`, `FlowDrop`): a list
  of rows with levels becomes a tree of objects, is flattened under a collapse state, and a drop is classified and
  carried out.
- **Moving by neighbours** (`AdjacentMoves`): a drag carried out as raise and lower steps.
- **Group trees** (`GroupForest`, `GroupDescendants`): copying a group with everything below it, and collecting members.
- **The client policy editor** (`PolicyEditor`): edits in place in an object of the list that is sent.
- **Form values** (`FormKeys`, `FormObjects`, `AttributeRows`, `FormValues`): nested configuration to flat form
  fields and back, and attributes as rows.

`Common` holds the optional value and the list operations that several parts share. In each part the object
or loop of the source is a class or method, proved against functions on values; the lemmas are about these
functions. `dafny verify dfyconfig.toml` checks everything.

## What the code does not guarantee

Where a property fails, the model keeps the code as it is; one lemma says exactly when the property holds, another
gives an input with which it does not.

- A refresh answer with status 200 whose body or tokens cannot be decoded throws before the queue is emptied.
  From then on every `updateToken` that needs a refresh joins a queue that nothing will ever settle
  (`AdapterRuns.AnswerSettlesQueueExactly`, `AdapterRuns.StuckForever`, `AdapterRuns.StuckExample`).
- A refresh request can go out without a refresh token: on a client with the iframe, when a call of `updateToken`
  goes on in its promise callback, nobody waits for a refresh yet, and the refresh token has gone meanwhile, for instance
  because the session changed, while the call is forced or finds no access token or, in the implicit flow, an expired
  one (`AdapterRequests.TokenlessRequestExactly`, `AdapterRequests.TokenlessExample`). A client without the iframe never
  sends one (`AdapterRequests.NeverTokenlessWithoutIframe`).
- When a token of a response does not decode, `setToken` throws half way. Fields that do not belong together are left
  (`AdapterCallbacks.StepCoherent`, `AdapterCallbacks.IncoherentExample`); the nonce is not checked, so a client that
  was authenticated before, as in the second half of a hybrid login, keeps an id token with another nonce
  (`AdapterCallbacks.NonceEscapesExactly`, `AdapterCallbacks.NonceEscapesExample`); and the promise of a code exchange
  is never settled (`AdapterCallbacks.CodeAnswerAbandonsExactly`, `AdapterCallbacks.AbandonedForever`,
  `AdapterCallbacks.AbandonedExample`).
- In query mode with `#` before `?` the rewritten address still holds the answer; and with no other parameter
  left, a fragment with a `?` of its own can pose as an answer (`CallbackUrl.CleaningIsComplete`,
  `CallbackUrl.HashFirstExample`, `CallbackUrl.FragmentPosesExample`).
- The sweep of the login-state store steps over the entry behind one it removed, so of two expired entries in a row it
  leaves one (`CallbackStorage.SweepIsComplete`, `CallbackStorage.SweepExample`).
- `getParentNodes` scans the flat list but stops at an index on screen, so hidden rows make it stop too
  early (`DropClassification.ScanFindsParent`, `DropClassification.DropFitsExactly`,
  `DropClassification.CollapsedFlowMisleads`).
- A drop into another flow below the top carries an old index of 0, so the execution, created at the end of that flow,
  stays there wherever it was dropped (`DropClassification.ChangeIndices`, `AdjacentMoves.LevelChangeReaches`).
- The enable switch of a client policy saves without validating the name. If the form holds the name of another
  policy, that policy is replaced, and the two entries now share their arrays (`PolicyEditor.SavedArrays`,
  `PolicyEditor.UnvalidatedSaveExample`).
- Deleting a condition or profile moves the page to the name in the form, saved or not; after that the
  profiles shown, to which new ones are added, need not be those of the edited policy (`PolicyEditor.ShownIsCurrent`,
  `PolicyEditor.UnsavedNameExample`).
- A key with a mug of its own does not survive the form (`FormValues.ConfigRoundTrip`, `FormKeys.MugExample`).
- Saving attributes one of which is named like an inherited property throws (`AttributeRows.RowsRoundTrip`,
  `AttributeRows.InheritedExample`), and so does saving an array with null or undefined before its first row
  (`AttributeRows.AskingThrowsExactly`, `AttributeRows.NullExample`).

## Model

| member | source | states |
|---|---|---|
| AdapterRuns.RunIsSafe | js/libs/keycloak-js/lib/keycloak.js:618-703 | After every run of calls, answers, iframe messages, timers and promise callbacks in any order whose tokens decode: at most one refresh request is in flight, and one exactly while promises are queued; at most one iframe message is unanswered, and one exactly while someone waits for it; each promise handed out is settled or waits in exactly one place; the token fields belong together and at most one expiry timer is live |
| AdapterRuns.RunIsSafeWhateverArrives | js/libs/keycloak-js/lib/keycloak.js:618-814 | The part that holds even when answers cannot be decoded: never two refresh requests, never two unanswered messages, no promise lost or held twice, at most one expiry timer and none of a token that is gone, and no second `onAuthSuccess` for one processed callback |
| AdapterRuns.AnswerSettlesQueueExactly | js/libs/keycloak-js/lib/keycloak.js:656-683 | In every reachable state, an answer to the refresh request empties the queue and settles everyone in it, all with the same outcome, if and only if it can be decoded; otherwise the queue is left without a request |
| AdapterRuns.StuckForever | js/libs/keycloak-js/lib/keycloak.js:644-686 | Once an answer that cannot be decoded has left the queue without a request, no later event in any run settles anyone in it or sends a request again |
| AdapterRuns.StuckExample | js/libs/keycloak-js/lib/keycloak.js:656-665 | Three events from a fresh client lead there |
| AdapterRuns.BetweenEvents | js/libs/keycloak-js/lib/keycloak.js:628-702 | When the promise callbacks have run, each promise handed out is in exactly one of: settled, waiting on the iframe, in the refresh queue |
| AdapterRuns.TaskMakesProgress | js/libs/keycloak-js/lib/keycloak.js:691-696 | Promise callbacks come to an end: each one run leaves less to run |
| AdapterRuns.NonceIsChecked | js/libs/keycloak-js/lib/keycloak.js:797-812 | With nonces on and a response whose tokens decode, from every reachable state: if the client is authenticated after the tokens of a callback were checked and holds an id token, that token's nonce is the stored one (OpenID Connect Core 1.0, section 3.1.3.7) |
| AdapterCallbacks.NonceEscapesExactly | js/libs/keycloak-js/lib/keycloak.js:797-812 | For every response, decodable or not: the client is left authenticated with an id token of another nonce if and only if a token does not decode, the client was authenticated before, and the id token that `setToken` leaves behind has another nonce |
| AdapterCallbacks.NonceEscapesExample | js/libs/keycloak-js/lib/keycloak.js:735-812 | A hybrid login, two events from a fresh client, that ends so |
| AdapterCallbacks.StepCoherent | js/libs/keycloak-js/lib/keycloak.js:952-1009 | In every reachable state an event that stores tokens leaves fields that belong together if and only if the tokens decode, whatever the fields were before, and every other event keeps fields that belong together |
| AdapterCallbacks.IncoherentExample | js/libs/keycloak-js/lib/keycloak.js:974-978 | An access token that does not decode is stored by a client that is not authenticated |
| AdapterCallbacks.CallbackSettles | js/libs/keycloak-js/lib/keycloak.js:735-795 | How processing a callback ends its promise: resolved, rejected or left, and exactly when a code exchange is left to end it |
| AdapterCallbacks.CodeSettles | js/libs/keycloak-js/lib/keycloak.js:780-812 | How the answer to a code exchange ends the promise: rejected for a failure or a wrong nonce, resolved in the standard flow for tokens that pass, and not at all for an answer that does not decode |
| AdapterCallbacks.CodeAnswerAbandonsExactly | js/libs/keycloak-js/lib/keycloak.js:782-786 | In the standard flow an answer to the code exchange leaves the promise with nothing to end it if and only if it is a success that does not decode |
| AdapterCallbacks.AbandonedForever | js/libs/keycloak-js/lib/keycloak.js:780-792 | Such a promise is settled in no run |
| AdapterCallbacks.AbandonedExample | js/libs/keycloak-js/lib/keycloak.js:782-786 | Two events from a fresh client lead there |
| AdapterCallbacks.StepSettles | js/libs/keycloak-js/lib/keycloak.js:735-814 | No event settles the promise of another callback than the one it brings or answers |
| AdapterOutcomes.IframeAnswerDecides | js/libs/keycloak-js/lib/keycloak.js:691-697 | In every reachable state, once the iframe has answered and the promise callbacks have run: after an error every waiting call is rejected; after `unchanged` each ends as its own check of the present token decides; after `changed` the token is gone and each is in the refresh queue; if that was empty, one request was sent with whatever refresh token is left, which is none if there was a token to clear |
| AdapterOutcomes.IframeReplyOutcome | js/libs/keycloak-js/lib/keycloak.js:1183-1207 | The answer leaves nobody waiting for the iframe, makes every call that waited ready to go on or to be rejected, and sends nothing |
| AdapterOutcomes.UpdateTokenOutcome | js/libs/keycloak-js/lib/keycloak.js:618-703 | What a call comes to at once: its promise is in exactly one place, it is rejected exactly without a refresh token, and only the first in an empty queue sends a request, with that token |
| AdapterOutcomes.ExecOutcome | js/libs/keycloak-js/lib/keycloak.js:628-689 | The second half throws without effect and only without a refresh token, answers false, or queues and sends only for the first in the queue |
| AdapterOutcomes.ClearTokenOutcome | js/libs/keycloak-js/lib/keycloak.js:705-713 | Clearing a client with a token removes all tokens and tells the application once; whatever the handler then calls is answered on the spot |
| AdapterOutcomes.ClearingSendsNothing | js/libs/keycloak-js/lib/keycloak.js:705-713 | No handler can send a request or join a queue while the token is being cleared |
| AdapterOutcomes.DrainSends | js/libs/keycloak-js/lib/keycloak.js:628-689 | While promise callbacks run, at most one request is sent, by the first that needs it and with the refresh token there is |
| AdapterOutcomes.RefreshFollowsServerClock | js/libs/keycloak-js/lib/keycloak.js:598-697 | With the tokens of a response, a call decides by the server's clock within an error of half a round trip, at once without the iframe and in the promise callback with it: clearly too little life left and it queues for a refresh, clearly enough and it is answered false with no request |
| AdapterRequests.TokenlessRequestExactly | js/libs/keycloak-js/lib/keycloak.js:641-652 | In every state that can be reached, a step sends a refresh request without a refresh token if and only if it runs the promise callback of a call, nobody waits for a refresh yet, the refresh token has gone, and the call was forced, or there is no parsed token, or (implicit flow) it counts as expired |
| AdapterRequests.NeverTokenlessWithoutIframe | js/libs/keycloak-js/lib/keycloak.js:698-700 | In no run of a client without the iframe is such a request ever sent |
| AdapterRequests.TokenlessExample | js/libs/keycloak-js/lib/keycloak.js:691-697 | A run of a fresh client with the iframe in which it is sent |
| AdapterRequests.RunCallsProvided | js/libs/keycloak-js/lib/keycloak.js:641-652 | Re-entrant calls of handlers never send one |
| AdapterLiveness.EverythingSettles | js/libs/keycloak-js/lib/keycloak.js:618-703 | From every point of every run whose tokens decode: promise callbacks, one iframe answer, promise callbacks and one server answer that decodes settle every promise ever handed out, unless the handlers make new calls |
| AdapterOutcomes.TaskEnds | js/libs/keycloak-js/lib/keycloak.js:628-697 | A promise callback that is ready ends its call as the check decides, whatever else is ready, and a check that throws rejects it |
| AdapterOutcomes.CodeAnswerSucceedsExactly | js/libs/keycloak-js/lib/keycloak.js:780-812 | The answer to a code exchange of the standard flow announces success if and only if it is a success, its tokens decode, and its id token, unless an expiry handler has cleared it by then, carries the stored nonce |
| AdapterOutcomes.CallbackSucceedsExactly | js/libs/keycloak-js/lib/keycloak.js:735-761 | A processed callback announces success at once if and only if it is no error, the flow is not the standard one, tokens came with it, they decode and the nonce is the stored one |
| AdapterOutcomes.AuthSucceedsExactly | js/libs/keycloak-js/lib/keycloak.js:797-812 | `authSuccess` that may announce success does so if and only if the tokens decode and the nonce check finds nothing wrong |
| AdapterOutcomes.AcceptedExactly | js/libs/keycloak-js/lib/keycloak.js:797-807 | The tokens of a callback are accepted if and only if they decode and the nonce check finds nothing wrong |
| AdapterRuns.RunKeeps | js/libs/keycloak-js/lib/keycloak.js:618-814 | Every run from a state that satisfies the invariant ends in one, and takes back no settlement |
| AdapterSafety.StepKeeps | js/libs/keycloak-js/lib/keycloak.js:618-814 | Every single event keeps what every run keeps, and the whole invariant when its tokens decode |
| AdapterSafety.UpdateTokenKeeps | js/libs/keycloak-js/lib/keycloak.js:618-703 | A call of `updateToken` from any point, also from within a handler, puts its promise in exactly one place and sends a request only for the first in the queue |
| AdapterSafety.ClearTokenKeeps | js/libs/keycloak-js/lib/keycloak.js:705-713 | Clearing, with whatever the logout handler calls in turn, keeps queues, promises and token fields sound |
| AdapterSafety.RunCallsKeeps | js/libs/keycloak-js/lib/keycloak.js:667-678 | Any list of re-entrant calls made by a handler keeps them sound, only appends to the queue, and sends no second request while one is in flight |
| AdapterSafety.StoreTokensKeeps | js/libs/keycloak-js/lib/keycloak.js:952-1009 | Storing tokens, with an expiry handler called on the spot, keeps them sound, and throws exactly when a token does not decode |
| AdapterSafety.SettleQueueKeeps | js/libs/keycloak-js/lib/keycloak.js:668-670 | Popping the queue to its end leaves it empty and gives everyone in it the same outcome, once |
| AdapterSafety.RefreshResponseKeeps | js/libs/keycloak-js/lib/keycloak.js:656-683 | A finished refresh request keeps the invariant; promises queued by handlers during the answer are settled with it |
| AdapterSafety.IframeReplyKeeps | js/libs/keycloak-js/lib/keycloak.js:1183-1207 | An answer of the iframe takes everyone off the callback list and keeps the invariant |
| AdapterSafety.RunTaskKeeps | js/libs/keycloak-js/lib/keycloak.js:628-697 | A promise callback that runs keeps the invariant |
| AdapterSafety.CheckIntervalKeeps | js/libs/keycloak-js/lib/keycloak.js:1214-1243 | The periodic check joins the waiting list and posts only when nobody waits yet |
| AdapterSafety.CheckIframeLoose | js/libs/keycloak-js/lib/keycloak.js:1228-1243 | Whoever joins the iframe's waiting list, or is answered at once without an iframe, has its promise held in exactly one place |
| AdapterSafety.ExecLoose | js/libs/keycloak-js/lib/keycloak.js:628-689 | The second half of `updateToken` settles or queues the promise, or leaves everything as it was and throws |
| AdapterSafety.ExpiryTimerKeeps | js/libs/keycloak-js/lib/keycloak.js:990-997 | An expiry timer that fires, and what its handler calls, keeps the invariant |
| AdapterSafety.ProcessCallbackKeeps | js/libs/keycloak-js/lib/keycloak.js:735-795 | A processed callback keeps the invariant and announces success at most once, at once or for the code exchange it starts |
| AdapterSafety.CodeResponseKeeps | js/libs/keycloak-js/lib/keycloak.js:780-792 | The answer to a code exchange keeps the invariant, and outside the standard flow it announces no success |
| AdapterSafety.ReadyTasksKeepIds | js/libs/keycloak-js/lib/keycloak.js:1197-1206 | Handing the waiting list over in reverse loses and repeats no promise |
| AdapterCalls.CallRefreshes | js/libs/keycloak-js/lib/keycloak.js:618-703 | From every reachable state with a refresh token, with the iframe and without: a call with `minValidity` -1, without an access token or without an idea of the server's clock waits for a refresh once the iframe has found nothing changed |
| AdapterCalls.CallFollowsServerClock | js/libs/keycloak-js/lib/keycloak.js:598-703 | Over a call's argument and its outcome, with the iframe and without: with the tokens of a response it waits for a refresh if by the server's clock clearly less life is left than asked for, and is told that none was needed if clearly more is; the error is half a round trip, and an argument of 0 counts as 5 |
| AdapterCalls.CallEnds | js/libs/keycloak-js/lib/keycloak.js:626-697 | On a client with the iframe the call ends as the check of its own argument decides, rejected where that throws |
| AdapterCalls.ChecksGoOn | js/libs/keycloak-js/lib/keycloak.js:1214-1226 | After the iframe's answer the periodic check goes on, once for each that waited, exactly if nothing has changed, the iframe is on and there is a token |
| AdapterCalls.CheckWithoutIframe | js/libs/keycloak-js/lib/keycloak.js:1214-1243 | A check made before the iframe is there is not repeated |
| AdapterCalls.LastWaiterGoesFirst | js/libs/keycloak-js/lib/keycloak.js:1197-1206 | Those who waited for the iframe go on in reverse order, behind what was ready before |
| AdapterTokens.RefreshStores | js/libs/keycloak-js/lib/keycloak.js:656-667 | A refresh that succeeds leaves each token of the answer in its own field, unless a handler has cleared them since, and a guess of the server's clock from the midpoint of request and answer; with handlers that call nothing it establishes what the bounds on the clock rest on |
| AdapterTokens.FailedRefreshKeeps | js/libs/keycloak-js/lib/keycloak.js:672-683 | A failure with status 400 clears the tokens, any other, or no JSON, leaves them; the application is told of the error last |
| AdapterTokens.InitStores | js/libs/keycloak-js/lib/keycloak.js:952-1009 | Tokens given to `init` are in their fields, and the guess of the clock is left alone |
| AdapterTokens.CallbackStores | js/libs/keycloak-js/lib/keycloak.js:735-812 | Tokens of a callback are in their fields if the nonce fits, and no access token is left if it does not; a callback without tokens leaves them as they were |
| AdapterTokens.CodeStores | js/libs/keycloak-js/lib/keycloak.js:780-812 | The same for the answer to a code exchange, with the guess of the clock from its midpoint; a failure leaves the tokens as they were |
| AdapterTokens.CodeSchedules | js/libs/keycloak-js/lib/keycloak.js:782-786 | After a code exchange one periodic check is set up exactly if the answer decodes, the iframe is on and there is a token |
| AdapterTokens.FailedTells | js/libs/keycloak-js/lib/keycloak.js:742-757 | A failed callback tells nothing for a silent login, starts a new login for an expired one, and else reports the error; with an error handler that calls nothing it does no more |
| AdapterTokens.TimerTells | js/libs/keycloak-js/lib/keycloak.js:994-997 | A timer that fires is gone and tells the application, and with a handler that calls nothing that is all |
| AdapterNotices.StepNotifies | js/libs/keycloak-js/lib/keycloak.js:656-814 | Every event, with handlers that call `updateToken` in any number: each notice is followed by exactly the calls of its handler, and nothing else makes a call |
| TokenState.TimerExactly | js/libs/keycloak-js/lib/keycloak.js:990-997 | The expiry handler is called at once exactly if the token has expired by the client's guess of the server's clock; else one timer is set, due when it will have; without a handler or a guess none is |
| TokenState.TimerFollowsServerClock | js/libs/keycloak-js/lib/keycloak.js:983-997 | A timer set with a response fires within a second and half the round trip of the token's expiry by the server's clock |
| TokenState.SetTokenCoherent | js/libs/keycloak-js/lib/keycloak.js:952-1009 | From coherent fields, `setToken` leaves coherent fields exactly when all tokens given decode, and throws exactly when they do not |
| TokenState.OnlyNewTimer | js/libs/keycloak-js/lib/keycloak.js:952-956 | After `setToken`, whether the tokens decode or not, at most one timer is live, it is a new one, and it was set for the token given: none of a replaced or cleared token survives |
| TokenState.ClockSkewBound | js/libs/keycloak-js/lib/keycloak.js:598-616 | With a constant clock offset and a token stamped between request and response: not expired means more than minValidity - 1 seconds less half the round trip are left by the server's clock, and minValidity + 2 seconds plus half the round trip left means not expired |
| TokenState.SkewBound | js/libs/keycloak-js/lib/keycloak.js:983-985 | The estimated skew is within one second and half a round trip of the true offset |
| KeycloakClient.Keycloak.constructor | js/libs/keycloak-js/lib/keycloak.js:40-129 | A new object is valid and live, with the clock skew it was given |
| KeycloakClient.Keycloak.Promises | js/libs/keycloak-js/lib/keycloak.js:618-814 | A valid object has at most one request, one unanswered message and one timer, every promise in exactly one place and at most one success for each callback; a live one has coherent tokens and a request exactly while someone waits for it |
| KeycloakClient.Keycloak.OnEvent | js/libs/keycloak-js/lib/keycloak.js:618-814 | Whatever event comes next, the object does what the state machine does and stays valid, and live if the tokens decode |
| KeycloakClient.Keycloak.Serve | js/libs/keycloak-js/lib/keycloak.js:618-814 | Over any run of events the object goes through the run of the state machine and stays valid, and live if all tokens decode |
| KeycloakClient.Keycloak.SetToken | js/libs/keycloak-js/lib/keycloak.js:952-1009 | The field-by-field assignments, in the source's order, leave the state that the specification function says, also where a token does not decode half way |
| KeycloakClient.Keycloak.Update | js/libs/keycloak-js/lib/keycloak.js:618-703 | The promise is new and held in exactly one place, it is rejected at once exactly when there is no refresh token, and a request is sent only by the first in an empty queue, carrying that token; with the iframe the call waits with the `minValidity` it was given; a valid object stays valid |
| KeycloakClient.Keycloak.Clear | js/libs/keycloak-js/lib/keycloak.js:705-713 | No token is left; if there was one the refresh token is gone and the application was told once, but nothing was sent and nobody new waits; a valid object stays valid |
| KeycloakClient.Keycloak.SettleAll | js/libs/keycloak-js/lib/keycloak.js:668-670 | The loop that pops the refresh queue settles it as the recursive specification does |
| KeycloakClient.Keycloak.OnRefreshResponse | js/libs/keycloak-js/lib/keycloak.js:656-683 | The queue is empty and everyone in it settled the same way if and only if the answer decodes; otherwise the queue is stuck; no request remains; the tokens of an answer that decodes are each in their field, unless cleared since; the object stays valid |
| KeycloakClient.Keycloak.OnIframeMessage | js/libs/keycloak-js/lib/keycloak.js:1183-1207 | Nobody is left waiting for the iframe, every call that waited is ready to go on or to be rejected, the token is gone unless nothing has changed, and nothing was sent; the object stays valid |
| KeycloakClient.Keycloak.MakeReady | js/libs/keycloak-js/lib/keycloak.js:1199-1206 | The reverse loop over the spliced list makes everyone ready, the last one first |
| KeycloakClient.Keycloak.NextTask | js/libs/keycloak-js/lib/keycloak.js:691-696 | The call of the next promise callback ends as its check decides or is handed over to a rejection, and a request without a refresh token goes out exactly in the one situation; the object stays valid |
| KeycloakClient.Keycloak.OnCallback | js/libs/keycloak-js/lib/keycloak.js:735-795 | Success is announced at once exactly for tokens in the address that pass the checks; the object stays valid |
| KeycloakClient.Keycloak.OnCodeResponse | js/libs/keycloak-js/lib/keycloak.js:780-792 | In the standard flow success is announced exactly for an answer that passes the checks, in the other flows never; the object stays valid |
| CallbackUrl.CleaningIsComplete | js/libs/keycloak-js/lib/keycloak.js:1039-1093 | For every address that is read as an answer: the rewritten address is not read as one again if and only if the mode is fragment, or there is no `#`, or the `?` comes first and the fragment does not itself pose as an answer |
| CallbackUrl.OnlyRecognisedPiecesGo | js/libs/keycloak-js/lib/keycloak.js:1063-1078 | The rewritten address is the old one less exactly the recognised pieces; the others stay in order, leading empty ones are dropped, and the mark goes when nothing is left; for every address in fragment mode and, in query mode, every one with `?` before any `#` |
| CallbackUrl.HashFirstNeverCleans | js/libs/keycloak-js/lib/keycloak.js:1063-1071 | In query mode with `#` before `?` the swapped substring keeps the answer in the address, and it is read again with the same parameters |
| CallbackUrl.HashFirstExample | js/libs/keycloak-js/lib/keycloak.js:1063-1071 | A concrete address of that kind |
| CallbackUrl.FragmentPosesExample | js/libs/keycloak-js/lib/keycloak.js:1063-1071 | A concrete address whose fragment poses as an answer |
| CallbackReading.ValidOnce | js/libs/keycloak-js/lib/keycloak.js:1019-1037 | Two answers that name the same state are not both valid, whatever happens to the store in between, unless a login is stored under that state again |
| CallbackReading.UncleanedIsHarmless | js/libs/keycloak-js/lib/keycloak.js:1019-1037 | An answer that stays in an address with `#` before `?` is read again, but is not valid again |
| CallbackReading.FirstAnswerIsValid | js/libs/keycloak-js/lib/keycloak.js:1019-1037 | The first answer that names the state of a login stored within the last hour is valid and brings that login, whatever other logins are added or asked for in between |
| CallbackUrl.AnswersExactly | js/libs/keycloak-js/lib/keycloak.js:1039-1093 | An address is an answer if and only if its text has a state and an error, an access token (implicit flow) or a code (other flows), each with a value in the last piece of its name |
| CallbackUrl.RecognisedNames | js/libs/keycloak-js/lib/keycloak.js:1042-1061 | Which names are recognised in which flow |
| CallbackUrl.NamedPiece | js/libs/keycloak-js/lib/keycloak.js:1098-1105 | A piece is split at its first `=` |
| CallbackUrl.BarePiece | js/libs/keycloak-js/lib/keycloak.js:1098-1105 | A piece without `=` loses its last character |
| CallbackUrl.FragmentModeCleans | js/libs/keycloak-js/lib/keycloak.js:1072-1078 | In fragment mode the rewritten address is never an answer |
| CallbackUrl.QueryRestStays | js/libs/keycloak-js/lib/keycloak.js:1063-1071 | In query mode with other parameters left, it is none either |
| CallbackUrl.QueryRestGone | js/libs/keycloak-js/lib/keycloak.js:1063-1071 | With none left it is one exactly when a `?` within the fragment makes the fragment read as one |
| CallbackUrl.ParseCallbackParams | js/libs/keycloak-js/lib/keycloak.js:1095-1114 | The loop over the pieces yields the recognised parameters and the joined rest; a piece without `=` loses its last character to form the key |
| CallbackUrl.RestIsClean | js/libs/keycloak-js/lib/keycloak.js:1095-1114 | What is left of a parameter text contains no recognised piece and is left as it is when parsed again |
| CallbackUrl.LastPieceWins | js/libs/keycloak-js/lib/keycloak.js:1104-1105 | Of several pieces of one recognised name the last gives the value |
| CallbackUrl.RecognisedHasPiece | js/libs/keycloak-js/lib/keycloak.js:1104-1105 | No parameter comes from anywhere but a piece of its name |
| CallbackUrl.RebuiltIsJoin | js/libs/keycloak-js/lib/keycloak.js:1107-1110 | Putting the kept pieces together with a conditional separator is joining them without leading empty pieces |
| CallbackStorage.OneShot | js/libs/keycloak-js/lib/keycloak.js:1626-1648 | Over every run of adds, gets and foreign writes, the gets that return a record of a state are no more than the adds under it |
| CallbackStorage.HitsReturnLastAdded | js/libs/keycloak-js/lib/keycloak.js:1626-1648 | What a get returns is the record last added under that state |
| CallbackStorage.LoginComesBack | js/libs/keycloak-js/lib/keycloak.js:1606-1648 | For an hour after `add`, `get` answers with the login, whatever else is added, asked for or written in between |
| CallbackStorage.GetAnswers | js/libs/keycloak-js/lib/keycloak.js:1626-1640 | What `get` answers to each kind of entry, and that only an empty one stays |
| CallbackStorage.SweptAlone | js/libs/keycloak-js/lib/keycloak.js:1606-1624 | Which entries count as expired: those under the client's prefix that are no JSON object with a later expiry |
| CallbackStorage.StepOnState | js/libs/keycloak-js/lib/keycloak.js:1606-1648 | One operation stores, removes or leaves the entry of a state, and changes it in no other way |
| CallbackStorage.SweepIsSound | js/libs/keycloak-js/lib/keycloak.js:1606-1624 | A sweep keeps all entries that are not expired, in order, removes nothing else, and leaves at most as many expired ones as it removed |
| CallbackStorage.SweepIsComplete | js/libs/keycloak-js/lib/keycloak.js:1606-1624 | A sweep leaves no expired entry if and only if no two expired entries stood next to each other |
| CallbackStorage.SweepExample | js/libs/keycloak-js/lib/keycloak.js:1606-1624 | Two expired logins of which the second stays |
| CallbackStorage.SweepSparesLive | js/libs/keycloak-js/lib/keycloak.js:1606-1624 | A live entry or one of other code is found unchanged after a sweep |
| CallbackStorage.LocalStorage.ClearExpired | js/libs/keycloak-js/lib/keycloak.js:1606-1624 | The loop ends with the store that the two-step recursion describes: the slot behind a removed entry is stepped over |
| CallbackStorage.LocalStorage.Get | js/libs/keycloak-js/lib/keycloak.js:1626-1640 | `get` removes before it parses; text that is no JSON throws and leaves the store unswept, any other value is returned |
| CallbackStorage.LocalStorage.Add | js/libs/keycloak-js/lib/keycloak.js:1642-1648 | `add` sweeps, then writes the record with an expiry one hour ahead |
| Base64Url.DecodeOfEncoded | js/libs/keycloak-js/lib/keycloak.js:1778-1816 | For every byte sequence, decoding its unpadded url-safe encoding gives the UTF-8 text it encodes, or through the fallback the bytes themselves when they encode none |
| Base64Url.TextRoundTrip | js/libs/keycloak-js/lib/keycloak.js:1778-1816 | For every text, decoding the encoding of its UTF-8 bytes gives the text as a JavaScript string |
| Base64Url.FallbackExactly | js/libs/keycloak-js/lib/keycloak.js:1796-1800 | The percent decoding fails exactly for bytes that encode no text (RFC 3629, section 3) |
| Base64Url.EncodedIsUrlSafe | js/libs/keycloak-js/lib/keycloak.js:369-376 | The encoding never has length 1 mod 4 and uses only letters, digits, minus and underscore (RFC 4648, section 5) |
| Base64Url.RestoreEncoded | js/libs/keycloak-js/lib/keycloak.js:1779-1794 | Translating the alphabet back and padding restores the standard encoding, for every byte sequence |
| Base64Url.AtobBtoa | js/libs/keycloak-js/lib/keycloak.js:1730-1733 | The standard decoding undoes the standard encoding |
| Base64Url.PercentDecodes | js/libs/keycloak-js/lib/keycloak.js:1806-1816 | Escaping every byte that `.` matches and decoding the escapes is UTF-8 decoding; line ends pass unescaped |
| Base64Url.TokenPayloadRoundTrip | js/libs/keycloak-js/lib/keycloak.js:1753-1773 | The payload text of a token put together from encoded parts is the text that was encoded, whatever follows a second dot |
| Utf8.DecodeEncode | js/libs/keycloak-js/lib/keycloak.js:1806-1816 | UTF-8 decoding undoes encoding |
| Utf8.EncodeDecode | js/libs/keycloak-js/lib/keycloak.js:1806-1816 | Bytes that decode are the encoding of what they decode to: overlong forms and surrogates do not decode |
| EncodingStandards.AlphabetIs | js/libs/keycloak-js/lib/keycloak.js:1730-1733 | The i-th letter of the alphabet of RFC 4648 stands for i, in both directions |
| EncodingStandards.GroupBits | js/libs/keycloak-js/lib/keycloak.js:1730-1733 | A group is the same 24 bits read as three bytes or as four characters, and an end is filled with zero bits (RFC 4648, section 4) |
| EncodingStandards.Rfc4648Vectors | js/libs/keycloak-js/lib/keycloak.js:1730-1733 | The test vectors of RFC 4648, section 10, in both directions |
| EncodingStandards.UrlSafeVector | js/libs/keycloak-js/lib/keycloak.js:369-376 | Bytes whose encoding needs both characters that the url-safe alphabet changes |
| EncodingStandards.ForeignCharacterThrows | js/libs/keycloak-js/lib/keycloak.js:1806-1809 | Text with a character outside the alphabet is not decoded |
| EncodingStandards.SpacesIgnored | js/libs/keycloak-js/lib/keycloak.js:1806-1809 | Whitespace anywhere in the text is ignored |
| EncodingStandards.NotDecoded | js/libs/keycloak-js/lib/keycloak.js:1753-1794 | A payload of length 1 mod 4 and a token without a dot are refused |
| EncodingStandards.Rfc3629Examples | js/libs/keycloak-js/lib/keycloak.js:1806-1816 | The examples of RFC 3629, section 7 |
| EncodingStandards.Rfc2781Example | js/libs/keycloak-js/lib/keycloak.js:1806-1816 | A character outside the Basic Multilingual Plane becomes the surrogates of RFC 2781, section 5 |
| ExecutionList.ExecutionList.constructor | js/apps/admin-ui/src/authentication/execution-model.ts:35-44 | For every list of levels, well formed or not, building ends in the tree that the levels describe, of new objects, all expanded |
| ExecutionList.ExecutionList.TransformToExpandableList | js/apps/admin-ui/src/authentication/execution-model.ts:46-70 | A recursive call builds exactly the block of deeper rows behind its start, and its result says where the caller goes on |
| ExecutionList.ExecutionList.PushRow | js/apps/admin-ui/src/authentication/execution-model.ts:51-67 | One turn of the loop places one row and, where the next row is deeper, everything below it |
| ExecutionList.ExecutionList.FreshListIsLossless | js/apps/admin-ui/src/authentication/execution-model.ts:35-81 | A new tree, flattened, shows each input row exactly once in input order |
| ExecutionList.ExecutionList.PlacedUnderParent | js/apps/admin-ui/src/authentication/execution-model.ts:46-70 | Each row sits in exactly one list, once: that of the nearest earlier row of strictly smaller level |
| ExecutionList.ExecutionList.Order | js/apps/admin-ui/src/authentication/execution-model.ts:72-81 | Flattening under any collapse state yields the visible rows of the block in list order |
| ExecutionList.ExecutionList.ShownRows | js/apps/admin-ui/src/authentication/execution-model.ts:72-81 | The whole table is the subsequence of rows whose ancestors are all expanded |
| ExecutionList.ExecutionList.FindExecution | js/apps/admin-ui/src/authentication/execution-model.ts:83-104 | The look-up with the shared counter returns the entry at that index of the flattened list, and past its end nothing, having counted every visible row |
| ExecutionList.ExecutionList.Find | js/apps/admin-ui/src/authentication/execution-model.ts:83-104 | For every index, also negative or too large, look-up by index agrees with the visible list |
| ExecutionList.ExecutionList.OnRowClick | js/apps/admin-ui/src/authentication/FlowDetails.tsx:454-455 | A click flips one row's state and keeps the tree |
| ExecutionList.ExecutionList.OnDrag | js/apps/admin-ui/src/authentication/FlowDetails.tsx:413-421 | Picking a row up collapses exactly that row |
| ExecutionList.ExecutionList.GetParentNodes | js/apps/admin-ui/src/authentication/execution-model.ts:106-115 | The scan returns the last earlier row exactly one level up |
| ExecutionList.ExecutionList.GetChange | js/apps/admin-ui/src/authentication/execution-model.ts:117-141 | The answer for a dropped order is the classification of the old and new position of the row |
| ExecutionList.ExecutionList.OnDrop | js/apps/admin-ui/src/authentication/FlowDetails.tsx:426-438 | After the splice from source to destination, `getChange` recovers these two positions (a destination past the end means last) |
| ExecutionList.ExecutionList.DropFollowsTree | js/apps/admin-ui/src/authentication/execution-model.ts:117-141 | Read off the tree objects: an index change exactly when both rows sit in one list, and a level change names the row whose list holds the target |
| ExecutionLevels.ChildrenHaveParent | js/apps/admin-ui/src/authentication/execution-model.ts:46-70 | The rows met by stepping from block to block are exactly those with that parent, in order |
| ExecutionLevels.VisibleRowsExact | js/apps/admin-ui/src/authentication/execution-model.ts:72-81 | The visible list holds each row with only expanded ancestors once, in order, and no other |
| ExecutionLevels.HiddenBelow | js/apps/admin-ui/src/authentication/execution-model.ts:72-81 | Below a collapsed or hidden row nothing is visible |
| ExecutionLevels.FullyExpanded | js/apps/admin-ui/src/authentication/execution-model.ts:72-81 | With nothing collapsed every row is visible, in input order |
| ExecutionLevels.ParentOneLevelUp | js/apps/admin-ui/src/authentication/execution-model.ts:46-70 | If levels start at 0 and rise by at most 1, a parent is exactly one level up, and only level 0 has none |
| ExecutionLevels.DepthIsLevel | js/apps/admin-ui/src/authentication/execution-model.ts:46-70 | In such lists depth in the tree is the level |
| DropClassification.ScanFindsParent | js/apps/admin-ui/src/authentication/execution-model.ts:106-115 | Stopped at an index on screen, the scan finds the tree parent if and only if that parent lies before the index and carries a level |
| DropClassification.ScanFindsParentUnfolded | js/apps/admin-ui/src/authentication/execution-model.ts:106-115 | With nothing hidden before the row the scan is the tree parent |
| DropClassification.DropIsClassified | js/apps/admin-ui/src/authentication/execution-model.ts:117-141 | Where both look-ups are sound: a level change exactly between rows of different tree parents, carrying the target's parent, and otherwise an index change between the two sibling indices |
| DropClassification.DropFitsExactly | js/apps/admin-ui/src/authentication/execution-model.ts:117-141 | For every drop under every collapse state, the answer fits the tree if and only if: among siblings, no row one level up lies at the list positions between the two indices on screen; otherwise the target's look-up is sound and the target's parent is not what the scan takes for that of the dragged row |
| FlowDrop.ExecuteDrop | js/apps/admin-ui/src/authentication/FlowDetails.tsx:426-438 | A drop among siblings, classified and carried out: it is an index change exactly when it reads right, and then the server's siblings end in the order on screen after the drop |
| FlowDrop.SiblingDropIsMove | js/apps/admin-ui/src/authentication/FlowDetails.tsx:156-167 | Moving between the two sibling indices among the siblings is what the splice did on screen |
| FlowDrop.MoveAmongSiblings | js/apps/admin-ui/src/authentication/FlowDetails.tsx:434-435 | Moving a row on screen to the place of a sibling moves it to that sibling's place among the siblings |
| FlowDrop.AllSiblingsShown | js/apps/admin-ui/src/authentication/execution-model.ts:72-81 | When one child of a row is on screen, all of them are, in order |
| DropClassification.LevelChangeNamesParent | js/apps/admin-ui/src/authentication/execution-model.ts:127-136 | A level change below the top names the target's tree parent if and only if that look-up is sound |
| DropClassification.CollapsedFlowMisleads | js/apps/admin-ui/src/authentication/execution-model.ts:127-136 | A concrete table with a collapsed flow in which the dragged flow itself is named as the new parent |
| DropClassification.ChangeIndices | js/apps/admin-ui/src/authentication/execution-model.ts:117-141 | The indices of every change, sound or not: the new one is the target's among its siblings, the old one the dragged row's own, the number of top-level rows for a change to the top, and 0 below it |
| AdjacentMoves.PriorityServer.ExecuteMove | js/apps/admin-ui/src/authentication/RequiredActions.tsx:112-132 | So many raise or lower steps turn the order into remove and insert; within the list no step is wasted at an end, beyond it the entry stops there |
| AdjacentMoves.MoveOneFurther | js/apps/admin-ui/src/authentication/RequiredActions.tsx:119-124 | One swap with the next neighbour carries a move one place further |
| AdjacentMoves.MoveOneBack | js/apps/admin-ui/src/authentication/RequiredActions.tsx:126-130 | One swap with the previous neighbour carries it one place back |
| AdjacentMoves.RegisteredMove | js/apps/admin-ui/src/authentication/RequiredActions.tsx:63-76 | Dragging a registered row among all rows moves it among the registered ones, at most to their end |
| AdjacentMoves.OnDragFinish | js/apps/admin-ui/src/authentication/RequiredActions.tsx:155-164 | After the drag of a registered action the server has its actions in the dropped order, also for a drop among the unregistered rows; other drags change nothing |
| AdjacentMoves.ExecuteIndexChange | js/apps/admin-ui/src/authentication/FlowDetails.tsx:156-167 | A move among siblings ends with the execution at its new index and the others in order |
| AdjacentMoves.ExecuteLevelChange | js/apps/admin-ui/src/authentication/FlowDetails.tsx:119-167 | A change of level, on the list it goes to: created at its end and moved by the difference of the indices, as far as the list goes |
| AdjacentMoves.LevelChangeReaches | js/apps/admin-ui/src/authentication/FlowDetails.tsx:156-167 | It ends at the index asked for if and only if the old index was the length of that list or the new one is; with an old index of 0 it stays at the end |
| Sequences.MovedTo | js/apps/admin-ui/src/authentication/FlowDetails.tsx:434-435 | Remove and insert puts the item at the destination and shifts exactly those in between by one |
| Sequences.MovedIsFound | js/apps/admin-ui/src/authentication/execution-model.ts:122-125 | Among distinct ids the moved one is found where it was dropped |
| GroupForest.GroupServer.DuplicateTree | js/apps/admin-ui/src/groups/GroupsModal.tsx:111-203 | Copying a group ends with one new top-level tree of new ids, isomorphic to the source with the same contents at every node and only the root renamed; every group that was there is unchanged, and nothing else is new |
| GroupForest.GroupServer.DuplicateGroup | js/apps/admin-ui/src/groups/GroupsModal.tsx:111-203 | The recursion copies one subtree under a parent while the forest grows, reading only groups that were there at the start |
| GroupForest.GroupServer.CopyContents | js/apps/admin-ui/src/groups/GroupsModal.tsx:129-188 | Members, permissions and roles of the source, as far as the settings ask for them, are those of the copy |
| GroupForest.GroupServer.FetchClientRoleMappings | js/apps/admin-ui/src/groups/GroupsModal.tsx:81-109 | Exactly the source's client roles of listed clients that have an id and a name |
| GroupForest.GroupServer.AssignRoles | js/apps/admin-ui/src/groups/GroupsModal.tsx:205-234 | Realm roles and client roles are told apart by the client and added to the group |
| GroupForest.CopyIsFaithful | js/apps/admin-ui/src/groups/GroupsModal.tsx:160-188 | Realm roles are all copied exactly when all have names; client roles exactly when their clients are listed and they have ids and names |
| GroupForest.MirrorsStill | js/apps/admin-ui/src/groups/GroupsModal.tsx:194-196 | What was copied earlier stays a copy while later siblings are being copied |
| GroupForest.GroupServer.GetSubGroups | js/apps/admin-ui/src/groups/Members.tsx:81-100 | The recursion over sub-group counts ends with the list that the specification collects |
| GroupForest.CollectsDescendants | js/apps/admin-ui/src/groups/Members.tsx:81-100 | With correct counts that list holds every group below as often as the tree does, and nothing else |
| GroupDescendants.CollectsEachOnce | js/apps/admin-ui/src/groups/Members.tsx:81-100 | In a store in which no group has two parents, it holds every proper descendant exactly once, and nothing else |
| GroupDescendants.PathsUnique | js/apps/admin-ui/src/groups/Members.tsx:81-100 | In such a store there is one way down to each group |
| GroupForest.GroupServer.Loader | js/apps/admin-ui/src/groups/Members.tsx:102-133 | With sub-groups included, the list holds each username of the page and of all descendants exactly once, and only members of these; the page comes first, in its order |
| GroupForest.UniqByUsername | js/apps/admin-ui/src/groups/Members.tsx:129 | The first user of each username stays, in order |
| GroupForest.CopyHas | js/apps/admin-ui/src/groups/GroupsModal.tsx:129-188 | What a copy has: the members always, permissions only where asked for and not for an organisation's group, roles with a name and, for clients, an id and a listed client, and none for an organisation's group |
| PolicyEditor.Editor.constructor | js/apps/admin-ui/src/realm-settings/NewClientPolicy.tsx:112-157 | The page opens on the first policy of that name, which is the object in the list; only if there is none, on a global one, which is then only shown |
| PolicyEditor.Editor.Save | js/apps/admin-ui/src/realm-settings/NewClientPolicy.tsx:176-221 | Over every run names stay distinct and the saved object is the one in the list; arrays that were unshared stay so if and only if the name was validated or there was no array to take over; a refused request changes nothing |
| PolicyEditor.Editor.DeleteCondition | js/apps/admin-ui/src/realm-settings/NewClientPolicy.tsx:260-273 | What is sent is the old list with the condition gone wherever the edited policy's array is held, which, as long as no array is shared, is the edited policy alone; a refused request still leaves the splice in place |
| PolicyEditor.Editor.DeleteProfile | js/apps/admin-ui/src/realm-settings/NewClientPolicy.tsx:305-317 | The same for a profile |
| PolicyEditor.Editor.AddProfiles | js/apps/admin-ui/src/realm-settings/NewClientPolicy.tsx:355-390 | The list sent has a new object in the place of the edited one, with the shown profiles followed by the added ones, and all others unchanged; it is the one edited from then on |
| PolicyEditor.SaveTouchesOnePolicy | js/apps/admin-ui/src/realm-settings/NewClientPolicy.tsx:185-200 | The policies other than the edited and the saved one keep their objects and order if and only if no other policy had the name |
| PolicyEditor.NamesStayDistinct | js/apps/admin-ui/src/realm-settings/NewClientPolicy.tsx:185-200 | Saving keeps names pairwise distinct, validated or not |
| PolicyEditor.SavedListHolds | js/apps/admin-ui/src/realm-settings/NewClientPolicy.tsx:185-200 | The list to send holds the saved object and exactly the old ones that are neither replaced nor renamed away |
| PolicyEditor.SavedArrays | js/apps/admin-ui/src/realm-settings/NewClientPolicy.tsx:176-200 | After a save no two policies share an array, if and only if the name was validated or nothing was taken over |
| PolicyEditor.UnvalidatedSaveExample | js/apps/admin-ui/src/realm-settings/NewClientPolicy.tsx:462-470 | Two policies of which one is saved under the name of the other |
| PolicyEditor.ShownIsCurrent | js/apps/admin-ui/src/realm-settings/NewClientPolicy.tsx:163-167 | The policy whose profiles are shown is the edited one if and only if the address names it and no global policy |
| PolicyEditor.UnsavedNameExample | js/apps/admin-ui/src/realm-settings/NewClientPolicy.tsx:163-167 | An unsaved name in the address shows no profiles |
| PolicyEditor.OnlyThere | js/apps/admin-ui/src/realm-settings/NewClientPolicy.tsx:262-266 | An array of the edited policy is in no other place of the list |
| PolicyEditor.SavedPlace | js/apps/admin-ui/src/realm-settings/NewClientPolicy.tsx:185-200 | The saved policy takes the place of the one of its name; a new name goes to the end |
| PolicyEditor.WithoutOne | js/apps/admin-ui/src/realm-settings/NewClientPolicy.tsx:262-266 | A splice takes out one item and keeps the others in order; past the end it takes none |
| FormValues.RoundTrip | js/apps/admin-ui/src/util.ts:98-145 | Loading an object into a fresh form and saving it keeps every field under its key: an ordinary one with its value, a configuration flattened, attributes without empty ones, and an array of rows grouped by key; it throws if and only if saving some field does: where asking for rows throws, or grouping them |
| FormValues.ConfigRoundTrip | js/apps/admin-ui/src/util.ts:106-139 | A configuration comes back as its dotted flattening with one-element arrays unwrapped, if and only if none of its dotted names holds a mug |
| FormValues.OrdinaryField | js/apps/admin-ui/src/util.ts:127-145 | A field that is no configuration is saved with its value, unless it is an array with rows, which becomes the object that groups them; it throws exactly where asking for rows throws, or something among them is nothing or has an inherited name |
| FormValues.EmptyConfiguration | js/apps/admin-ui/src/util.ts:98-113 | An empty configuration has an undefined field |
| FormValues.DottedNames | js/apps/admin-ui/src/util.ts:108 | The name of a flattened value is the names on its path with dots between them |
| FormValues.SecondRoundTrip | js/apps/admin-ui/src/util.ts:106-139 | A further round trip changes nothing, if and only if no non-empty object and no one-element array is left among the values |
| FormValues.FlattenedMeans | js/apps/admin-ui/src/util.ts:108 | Flattening keeps one entry for each dotted path to a value that is not a non-empty object, and that value when no two share the path |
| FormValues.Flattening.Step | js/apps/admin-ui/src/util.ts:108 | The nested calls writing into one object leave its specification |
| FormValues.ConvertToFormValues | js/apps/admin-ui/src/util.ts:98-125 | The loop over the fields and, inside, over the flattened configuration leaves the form that the specification says, on any form, attributes edited as rows included |
| FormValues.ConvertFormValuesToObject | js/apps/admin-ui/src/util.ts:127-145 | The loop fills the object field by field, and ends with an exception where asking for rows, or grouping them, throws |
| AttributeRows.RowsRoundTrip | js/apps/admin-ui/src/components/key-value-form/key-value-convert.ts:5-27 | Attributes come back from their rows without those that have no key or no value, if and only if none that remains has the name of something every object inherits; otherwise saving throws |
| AttributeRows.KeyValueToArray | js/apps/admin-ui/src/components/key-value-form/key-value-convert.ts:5-19 | The loop groups the rows with a key, in order, and throws at null or undefined among the rows and at an inherited name |
| AttributeRows.GroupedRowsAre | js/apps/admin-ui/src/components/key-value-form/key-value-convert.ts:5-19 | Rows become one entry for each key, in the order of first rows, with the values of all its rows in order; it throws if and only if a key has an inherited name |
| AttributeRows.AskingThrowsExactly | js/apps/admin-ui/src/util.ts:70-78 | Asking whether an array holds rows throws if and only if null or undefined comes before the first element with a key and a value |
| AttributeRows.NullExample | js/apps/admin-ui/src/util.ts:70-78 | Any array that starts with null makes it throw |
| AttributeRows.InheritedExample | js/apps/admin-ui/src/components/key-value-form/key-value-convert.ts:9-16 | An attribute named `constructor` cannot be saved |
| FormValues.FreshForm | js/apps/admin-ui/src/util.ts:98-125 | A fresh form ends with one field per entry, each configuration in one object |
| FormValues.SetAllIs | js/apps/admin-ui/src/util.ts:115-117 | Writing a configuration's fields one by one fills one object under the keys with mugs, over what the form held |
| FormKeys.RoundTripKey | js/apps/admin-ui/src/util.ts:92-96 | A key survives the form if and only if it holds no mug, for every string of UTF-16 code units |
| FormKeys.MugExample | js/apps/admin-ui/src/util.ts:92-96 | A lone mug comes back as a dot |
| FormKeys.MugIs | js/apps/admin-ui/src/util.ts:92-96 | The mug is U+1F37A |
| FormKeys.PathExample | js/apps/admin-ui/src/util.ts:115-117 | Brackets, quotes and bars in a name are taken apart |
| FormObjects.LaterWins | js/apps/admin-ui/src/util.ts:108 | Of several values put under one key the last one stays |
| FormKeys.ThereAndBack | js/apps/admin-ui/src/util.ts:92-96 | For every string, coming back from the form is the same as turning its mugs into dots, also next to lone surrogates |
| FormKeys.KeysCollide | js/apps/admin-ui/src/util.ts:92-96 | Two keys meet in one field if and only if they differ only in writing dots as mugs |
| FormKeys.DebeerifiedIsMugFree | js/apps/admin-ui/src/util.ts:95-96 | No saved key holds a mug |
| FormKeys.FieldPath | js/apps/admin-ui/src/util.ts:115-117 | The form library reads the name as the field and one step, if and only if the key is not empty and free of its brackets and quotes |
| FormKeys.AttributeIsItsField | js/apps/admin-ui/src/util.ts:82-90 | The field an attribute's input is bound to is the one its value is put in |

## Left out

- React rendering, dialogs, alerts, translations and routing, and every page not named above.
- XMLHttpRequest, iframes and message events as such: a request, a message or a timer is an entry of the state, and its answer an event. Each posted iframe message is answered at most once, and a message nobody asked for is not an event.
- SHA-256, random numbers and JSON parsing: a token carries what its decoding yields, which may be nothing; a payload that decodes is an object with numeric `exp` and `iat` (JSON `null` and other payloads that are no objects are not modelled), and `minValidity` is a number.
- `createLoginUrl`, endpoint set-up, what `init` itself waits for (its tokens and clock skew are modelled), the Cordova adapters, `CookieStorage` and `keycloak-authz.js`.
- The third-party-cookie check and the timeout put around promises.
- Handlers of the application that throw; what a handler does is a list of `updateToken` and `clearToken` calls, but any such list.
- `onActionUpdate` and the redirect that `login` starts, which are only noted or not modelled.
- Two readings of the clock within one event are taken to be equal.
- `sessionId` when tokens are cleared: the source does not delete it, and neither does the model; no claim is made about it without a token.
- Empty strings as parameters of a callback, tokens or names count as missing, as they are in JavaScript's conditions.
- `LocalStorage` keeps its keys in one order and a removal does not reorder them; only this client writes entries under its prefix.
- `executeChange` for a level change: the recursive calls that re-create a subtree are not awaited, so the source fixes no order. That a new execution is created at the end of its list is taken as given; its raise and lower loop is modelled.
- `clone` of the execution list, and that a row without children is the same object in the tree as in the flat list.
- Raise and lower on the server are taken to swap neighbours, and to do nothing at an end; registration of an unregistered action is not modelled.
- Calls to the server during group copying succeed; listings are complete, and their order is left open where the result is a set. Roles are assigned one after the other, where the source starts the calls for client roles together.
- Attributes and description of a group are one value; fetched details of the group to copy are taken to be current.
- Deleting a whole client policy leaves the page and is not modelled, and neither are edits of a global policy, for which the page offers no buttons.
- PolicyEditor.Editor.Save: form fields other than name, description and the enable switch are not modelled; conditions and profiles are names.
- Rows of attributes are null, undefined or have a text as key, and they come from lists of values, as their types say.
- The form library's `set` on paths: steps that are numbers make arrays there, which enumerate the same entries; the model makes objects. Objects enumerate in the order in which keys were put, where JavaScript lists integer-like keys first.
- FormValues.RoundTrip: names that the form library takes apart (brackets, quotes, empty keys) are excluded; `FormKeys.FieldPath` says exactly which.
