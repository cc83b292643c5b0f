# React hooks exercises: persistent state and fetch lifecycle

This project models the two pieces of logic in the exercises that do more than lay out
UI: the `useLocalStorageState` hook of `src/exercise/02.js` and the fetch lifecycle of
`PokemonInfo` with `App`'s name handlers in `src/exercise/06.js`.

- `local_storage_state.dfy` (module `LocalStorageState`). The browser's key-value store
  is a `Storage` object holding a `map<string, string>`. `GetItem` reads that map, and
  `SetItem` and `RemoveItem` change it in place. A mounted hook is a `Mirror`. It holds the
  component state and `prevKeyRef.current` as fields, and the serialiser and
  deserialiser as constant function fields. A deserialiser that throws is one that
  returns `None`. The constructor is the lazy initialiser. `Sync` is the effect. The
  pure functions `InitialRead` and `SyncedStore` say what each of them does to the
  store. `SyncAll` folds a run of sync cycles, and the lemmas are stated over it.
- `pokemon_info.dfy` (module `PokemonInfo`). The state record
  `{status, pokemon, error}` is a datatype. The two promise callbacks are the functional
  updates `WithPokemon` and `WithError`, and the render step is the function `Render`.
  The whole app is a value `App`. It holds the name, the record, the names fetched so far
  and the ids of requests that have not settled. Events are `Submit(name)`, `Reset`,
  `Resolve(id, pokemon)` and `Reject(id, error)`. `Step` and `Run` are the transition
  function and its fold. The class `PokemonApp` is the same state as fields, with one
  method per handler. Its event loop `Drive` is proved to follow `Run`. No request is
  ever cancelled, so a superseded request's completion still updates the state. The
  model states this behaviour: `StaleResponseShown`, `LastCompletionDecides`.
- `wrappers.dfy`: the `Option` type, standing for `null` and for a caught failure.

The model covers one mount of `PokemonInfo`. The error boundary is left out. In the app, a
rejected render throws, the boundary unmounts `PokemonInfo`, and "Try again" remounts it as
idle. Within one mount, the model records these facts.

- A completion applies even when its request has been superseded (`StaleResponseShown`).
- A settlement is applied once. A settled request never becomes outstanding again
  (`SettledStaysSettled`).
- Once a request has been issued, the status never returns to idle (`NeverIdleAgain`).
- The record can hold both a pokemon and an error (`PokemonAndErrorTogether`). This happens
  when the catch update and then the then update are applied to the same record. In the app,
  the thrown rejection unmounts the component first. So "one of payload/error is meaningful"
  holds of the status, not of the record.
- `Reset` only clears the name. The effect then does nothing, so the fetch state is
  unchanged. In the app, `handleReset` runs only from the boundary's retry button, while
  `PokemonInfo` is unmounted. The return to the idle prompt comes from the remount.

## Model

| member | source | states |
|---|---|---|
| LocalStorageState.Get | src/exercise/02.js:9 | `getItem` gives the stored string for a present key and `null` for an absent one |
| LocalStorageState.InitialRead | src/exercise/02.js:8-18 | a non-empty stored string that deserialises is adopted and the store is unchanged; a non-empty string that fails to deserialise is removed and the default is used; a missing or empty entry gives the default and stays as it is; no other key changes and no key is added |
| LocalStorageState.SyncedStore | src/exercise/02.js:23-30 | after a sync, `key` maps to the serialised state; a previous key that differs is absent; the key set is the old one minus the previous key plus `key`; every other key keeps its entry |
| LocalStorageState.SyncIdempotent | src/exercise/02.js:23-30 | a second sync with the same key and state leaves the store as the first left it, so extra effect runs are harmless |
| LocalStorageState.SyncThenReadRoundTrip | src/exercise/02.js:9-29 | if `deserialize(serialize(v)) == Some(v)` and `serialize(v)` is non-empty, initialising from the store after a sync of `v` under `key` yields `v` and leaves the store unchanged |
| LocalStorageState.SyncAllKeepsOnlyCurrentKey | src/exercise/02.js:21-30 | after any run of sync cycles, the last key holds the last serialised state; no other key the hook has used, nor the key it started with, is left in the store; every key it never used keeps its original entry |
| LocalStorageState.Storage.GetItem | src/exercise/02.js:9 | reading a key gives its entry, or nothing when the key is absent |
| LocalStorageState.Storage.SetItem | src/exercise/02.js:29 | writing a key replaces its entry and nothing else |
| LocalStorageState.Storage.RemoveItem | src/exercise/02.js:14 | removing a key deletes its entry and nothing else |
| LocalStorageState.Mirror.constructor | src/exercise/02.js:7-21 | mounting sets the state and the store as `InitialRead` gives them, and the remembered previous key to `key` |
| LocalStorageState.Mirror.SetState | src/exercise/02.js:33 | `setState` replaces the state and leaves the previous key and the store alone |
| LocalStorageState.Mirror.Sync | src/exercise/02.js:23-30 | the effect changes the store as `SyncedStore` says, remembers `key` as the previous key, and leaves `key` holding the serialised state |
| PokemonInfo.InitialState | src/exercise/06.js:17 | `initialState` is `{idle, null, null}` |
| PokemonInfo.PendingState | src/exercise/06.js:26 | the pending record is `initialState` with only the status changed to pending |
| PokemonInfo.InitialApp | src/exercise/06.js:17-81 | the initial app has the empty name from `useState('')` (line 81), the record `initialState` (line 17), no requests and nothing outstanding |
| PokemonInfo.InitialAppConsistent | src/exercise/06.js:17-20 | the initial record is `{idle, null, null}` and satisfies the reachability invariant |
| PokemonInfo.WithPokemon | src/exercise/06.js:28-33 | a resolution sets the status to resolved and the pokemon to the result, and keeps the error |
| PokemonInfo.WithError | src/exercise/06.js:35-37 | a rejection sets the status to rejected and the error to the failure, and keeps the pokemon |
| PokemonInfo.Render | src/exercise/06.js:54-65 | idle renders the prompt "Submit a pokemon"; pending renders the fallback for the current name; resolved renders the data view of the stored pokemon; rejected throws the stored error; each holds in both directions |
| PokemonInfo.Effect | src/exercise/06.js:22-27 | with an empty name nothing changes and no request is issued; with a non-empty name the record becomes `{pending, null, null}` and exactly one request for that name is appended and marked outstanding |
| PokemonInfo.SetName | src/exercise/06.js:81-89 | the name becomes the new value; setting the current name again changes nothing; setting the empty name leaves the record and the requests alone; a new non-empty name goes pending and issues exactly one request for it, which is marked outstanding |
| PokemonInfo.Complete | src/exercise/06.js:28-37 | the settlement of an outstanding request applies its update and marks it settled, whether or not a newer request exists; any other id changes nothing; the name and the requests never change |
| PokemonInfo.Step | src/exercise/06.js:22-89 | each event issues at most one request and never drops one; submit sets the name; reset clears the name and keeps the record; an outstanding resolution or rejection updates the record by its outcome and keeps the other field |
| PokemonInfo.StepPreservesConsistent | src/exercise/06.js:22-37 | every event preserves the invariant: outstanding ids are issued ones; only non-empty names are fetched; idle holds exactly until the first request; idle and pending hold neither pokemon nor error; pending waits on the latest request; resolved has a pokemon and rejected an error |
| PokemonInfo.RunPreservesConsistent | src/exercise/06.js:22-37 | any sequence of events preserves the invariant |
| PokemonInfo.ReachableConsistent | src/exercise/06.js:17-37 | every app reachable from the initial state satisfies the invariant |
| PokemonInfo.RunRequestsGrow | src/exercise/06.js:26-27 | the issued requests only grow along any sequence of events |
| PokemonInfo.SettledStaysSettled | src/exercise/06.js:27-37 | from any app, an issued request that has settled stays settled along any sequence of events, so each request moves once from pending to its outcome |
| PokemonInfo.NeverIdleAgain | src/exercise/06.js:20-27 | once a request has been issued, no sequence of events returns the status to idle |
| PokemonInfo.LastCompletionDecides | src/exercise/06.js:28-37 | after any history, the settlement of any outstanding request, superseded or not, decides the status and its own field and keeps the other |
| PokemonInfo.StaleResponseShown | src/exercise/06.js:26-38 | submitting `a` and then `b` and resolving `a`'s request shows `a`'s pokemon under the name `b`, while `b`'s request is still outstanding |
| PokemonInfo.PokemonAndErrorTogether | src/exercise/06.js:28-37 | rejecting the first of two requests and then resolving the second leaves a resolved record that holds both the pokemon and the earlier error |
| PokemonInfo.FieldsDelivered | src/exercise/06.js:26-37 | after any events, a pokemon or error the record holds was already held before them or was delivered by one of them, a pokemon by a `Resolve`, an error by a `Reject` |
| PokemonInfo.RenderReachable | src/exercise/06.js:54-65 | in every reachable app the prompt is shown exactly until the first request, a data view shows a pokemon that some `Resolve` event delivered, and a thrown error is one that some `Reject` event delivered |
| PokemonInfo.PokemonApp.constructor | src/exercise/06.js:17-81 | the app starts with the empty name of `App`'s `useState('')` (line 81), the record `initialState` `{idle, null, null}` (line 17), and no requests |
| PokemonInfo.PokemonApp.RunEffect | src/exercise/06.js:22-27 | the effect method changes the state as `Effect` says |
| PokemonInfo.PokemonApp.HandleSubmit | src/exercise/06.js:83-85 | `handleSubmit` changes the state as a `Submit` event does |
| PokemonInfo.PokemonApp.HandleReset | src/exercise/06.js:87-89 | `handleReset` changes the state as a `Reset` event does |
| PokemonInfo.PokemonApp.OnResolve | src/exercise/06.js:28-34 | the `then` callback changes the state as a `Resolve` event does |
| PokemonInfo.PokemonApp.OnReject | src/exercise/06.js:35-37 | the `catch` callback changes the state as a `Reject` event does |
| PokemonInfo.PokemonApp.Dispatch | src/exercise/06.js:28-37 | each event runs the handler or callback it stands for and changes the state as `Step` says; it models no source function of its own |
| PokemonInfo.PokemonApp.Drive | src/exercise/06.js:22-37 | handling a sequence of events one at a time leaves the app in the state `Run` gives |

## Left out

- React's own machinery is not modelled: `useState` and `useRef` storage, re-render timing and
  JSX. A render cycle is a sync with the current key and state.
- The hook's dependency array is not modelled. The model may run the sync when React would skip
  it. This is harmless because a repeated sync with the same key and state changes nothing
  (`SyncIdempotent`).
- The `[pokemonName]` dependency of `PokemonInfo`'s effect is modelled by `SetName`: the effect
  runs only when the name changes. `PokemonInfo`'s own re-renders after its state updates do not
  run it.
- `window.localStorage` is not modelled as a global. It is the `Storage` object passed to the
  hook.
- `JSON.stringify` and `JSON.parse` are abstract parameters, and so is their grammar. A
  throwing `serialize` is not modelled.
- The default arguments of the hook are not modelled: `defaultValue = ''` and the default JSON
  serialiser and deserialiser. The caller always passes all three.
- A `defaultValue` given as a function is not modelled. The default is a value, which stands
  for the function's result.
- The `Greeting`, `App` and `ErrorFallback` views are presentation only and are not modelled.
- The `ErrorBoundary` library is not modelled: catching the thrown error, `resetKeys`,
  remounting `PokemonInfo` with a fresh state, and the updates a callback makes after an
  unmount. Retrying therefore clears only the name here.
- `fetchPokemon`, `PokemonForm`, `PokemonInfoFallback` and `PokemonDataView` live in
  `src/pokemon`, which is not part of this model. A fetch is a request record, and its
  settlement is a later event. The views are the constructors of `View`.
- Promise timing is not modelled beyond the order of events. A completion event for an id that
  was never issued, or that has already settled, is ignored, because a promise settles once.
- `src/__tests__/03.js` tests a UI file that is not part of this model.
