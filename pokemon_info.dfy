/**
 * The fetch lifecycle of `PokemonInfo` and the name handlers of `App`
 * (src/exercise/06.js).
 *
 * `fetchPokemon` is not modelled: an effect run that fetches appends the
 * requested name to `requests` (its index is the request's id) and marks the
 * id outstanding; the promise's settlement is a later `Resolve` or `Reject`
 * event carrying that id.  Nothing cancels a request, so the completion of a
 * superseded request still updates the state.
 */
module PokemonInfo {
  import opened Wrappers

  datatype Status = Idle | Pending | Resolved | Rejected

  /** The component state `{status, pokemon, error}`; `None` stands for `null`. */
  datatype FetchState<P, E> = FetchState(status: Status, pokemon: Option<P>, error: Option<E>)

  /** `initialState`. */
  function InitialState<P, E>(): (r: FetchState<P, E>)
    ensures r.status == Idle && r.pokemon == None && r.error == None
  {
    FetchState(Idle, None, None)
  }

  /** `{...initialState, status: 'pending'}`. */
  function PendingState<P, E>(): (r: FetchState<P, E>)
    ensures r.status == Pending
    ensures r.pokemon == InitialState<P, E>().pokemon && r.error == InitialState<P, E>().error
  {
    InitialState().(status := Pending)
  }

  /** The functional update of the `then` callback. */
  function WithPokemon<P, E>(prev: FetchState<P, E>, pokemon: P): (r: FetchState<P, E>)
    ensures r.status == Resolved && r.pokemon == Some(pokemon) && r.error == prev.error
  {
    prev.(status := Resolved, pokemon := Some(pokemon))
  }

  /** The functional update of the `catch` callback. */
  function WithError<P, E>(prev: FetchState<P, E>, error: E): (r: FetchState<P, E>)
    ensures r.status == Rejected && r.error == Some(error) && r.pokemon == prev.pokemon
  {
    prev.(status := Rejected, error := Some(error))
  }

  /** What a render of `PokemonInfo` produces; `Thrown` is the error it throws. */
  datatype View<P, E> =
    | Prompt(text: string)
    | Fallback(name: string)
    | DataView(pokemon: Option<P>)
    | Thrown(error: Option<E>)

  /** The render step: a case split on `status`. */
  function Render<P, E>(s: FetchState<P, E>, pokemonName: string): (v: View<P, E>)
    ensures s.status == Idle <==> v == Prompt("Submit a pokemon")
    ensures s.status == Pending <==> v == Fallback(pokemonName)
    ensures s.status == Resolved <==> v == DataView(s.pokemon)
    ensures s.status == Rejected <==> v == Thrown(s.error)
  {
    match s.status
    case Idle => Prompt("Submit a pokemon")
    case Pending => Fallback(pokemonName)
    case Rejected => Thrown(s.error)
    case Resolved => DataView(s.pokemon)
  }

  /**
   * The whole app: `App`'s `pokemonName`, `PokemonInfo`'s state, the names
   * fetched so far (request `i` fetched `requests[i]`) and the ids of the
   * requests whose promise has not settled.
   */
  datatype App<P, E> = App(name: string, info: FetchState<P, E>, requests: seq<string>, outstanding: set<nat>)

  /** `App` mounts with the name `''` and `PokemonInfo` with `initialState`; nothing is fetched yet. */
  function InitialApp<P, E>(): (r: App<P, E>)
    ensures r.name == "" && r.info == InitialState() && r.requests == [] && r.outstanding == {}
  {
    App("", InitialState(), [], {})
  }

  datatype Event<P, E> =
    | Submit(name: string)
    | Reset
    | Resolve(id: nat, pokemon: P)
    | Reject(id: nat, error: E)

  /** One run of `PokemonInfo`'s effect for the current name. */
  function Effect<P, E>(m: App<P, E>): (r: App<P, E>)
    ensures r.name == m.name
    ensures m.name == "" ==> r == m
    ensures m.name != "" ==>
              && r.info == FetchState(Pending, None, None)
              && |r.requests| == |m.requests| + 1
              && r.requests[..|m.requests|] == m.requests
              && r.requests[|m.requests|] == m.name
              && r.outstanding == m.outstanding + {|m.requests|}
  {
    if m.name == "" then m
    else m.(info := PendingState(), requests := m.requests + [m.name], outstanding := m.outstanding + {|m.requests|})
  }

  /**
   * `setPokemonName(newName)`: when the name changes the app re-renders
   * and the effect runs for the new name; setting the same name again
   * changes nothing.
   */
  function SetName<P, E>(m: App<P, E>, newName: string): (r: App<P, E>)
    ensures r.name == newName
    ensures newName == m.name ==> r == m
    ensures newName == "" ==> r.info == m.info && r.requests == m.requests && r.outstanding == m.outstanding
    ensures newName != m.name && newName != "" ==>
              && r.info == FetchState(Pending, None, None) && r.requests == m.requests + [newName]
              && r.outstanding == m.outstanding + {|m.requests|}
  {
    if newName == m.name then m else Effect(m.(name := newName))
  }

  /** The settlement of request `id`; a promise settles once, so an id not outstanding is ignored. */
  function Complete<P, E>(m: App<P, E>, id: nat, update: FetchState<P, E> -> FetchState<P, E>): (r: App<P, E>)
    ensures r.name == m.name && r.requests == m.requests
    ensures id !in m.outstanding ==> r == m
    ensures id in m.outstanding ==> r.info == update(m.info) && r.outstanding == m.outstanding - {id}
  {
    if id in m.outstanding then m.(info := update(m.info), outstanding := m.outstanding - {id}) else m
  }

  /** One event: `handleSubmit`, `handleReset`, or a promise callback. */
  function Step<P, E>(m: App<P, E>, e: Event<P, E>): (r: App<P, E>)
    ensures m.requests <= r.requests && |r.requests| <= |m.requests| + 1
    ensures r.outstanding <= m.outstanding + {|m.requests|}
    ensures e.Submit? ==> r.name == e.name
    ensures e.Reset? ==> r.name == "" && r.info == m.info && r.requests == m.requests
    ensures (e.Resolve? || e.Reject?) ==> r.name == m.name && r.requests == m.requests
    ensures e.Resolve? && e.id in m.outstanding ==>
              r.info == m.info.(status := Resolved, pokemon := Some(e.pokemon))
    ensures e.Reject? && e.id in m.outstanding ==>
              r.info == m.info.(status := Rejected, error := Some(e.error))
  {
    match e
    case Submit(name) => SetName(m, name)
    case Reset => SetName(m, "")
    case Resolve(id, pokemon) => Complete(m, id, s => WithPokemon(s, pokemon))
    case Reject(id, error) => Complete(m, id, s => WithError(s, error))
  }

  /** The app after a sequence of events, applied in order. */
  function Run<P, E>(m: App<P, E>, events: seq<Event<P, E>>): App<P, E>
    decreases |events|
  {
    if events == [] then m else Run(Step(m, events[0]), events[1..])
  }

  /**
   * The invariant of every reachable app: outstanding ids name issued
   * requests; only non-empty names are fetched; the status is idle exactly
   * until the first request, and idle or pending states hold neither
   * pokemon nor error; a pending state is waiting on the latest request; a
   * resolved state holds a pokemon and a rejected one an error.
   */
  predicate Consistent<P, E>(m: App<P, E>)
  {
    && (forall id :: id in m.outstanding ==> id < |m.requests|)
    && (forall i :: 0 <= i < |m.requests| ==> m.requests[i] != "")
    && (m.info.status == Idle <==> m.requests == [])
    && (m.info.status in {Idle, Pending} ==> m.info.pokemon == None && m.info.error == None)
    && (m.info.status == Pending ==> |m.requests| - 1 in m.outstanding)
    && (m.info.status == Resolved ==> m.info.pokemon.Some?)
    && (m.info.status == Rejected ==> m.info.error.Some?)
  }

  lemma InitialAppConsistent<P, E>()
    ensures Consistent(InitialApp<P, E>())
    ensures InitialApp<P, E>().info == FetchState(Idle, None, None)
  {
  }

  lemma StepPreservesConsistent<P, E>(m: App<P, E>, e: Event<P, E>)
    requires Consistent(m)
    ensures Consistent(Step(m, e))
  {
  }

  lemma {:induction false} RunPreservesConsistent<P, E>(m: App<P, E>, events: seq<Event<P, E>>)
    requires Consistent(m)
    ensures Consistent(Run(m, events))
    decreases |events|
  {
    if events != [] {
      StepPreservesConsistent(m, events[0]);
      RunPreservesConsistent(Step(m, events[0]), events[1..]);
    }
  }

  /** Every app reachable from the initial one is consistent. */
  lemma ReachableConsistent<P, E>(events: seq<Event<P, E>>)
    ensures Consistent(Run(InitialApp(), events))
  {
    InitialAppConsistent<P, E>();
    RunPreservesConsistent(InitialApp(), events);
  }

  lemma {:induction false} RunAppend<P, E>(m: App<P, E>, a: seq<Event<P, E>>, b: seq<Event<P, E>>)
    ensures Run(m, a + b) == Run(Run(m, a), b)
    decreases |a|
  {
    if a != [] {
      assert (a + b)[0] == a[0];
      assert (a + b)[1..] == a[1..] + b;
      RunAppend(Step(m, a[0]), a[1..], b);
    } else {
      assert a + b == b;
    }
  }

  /** Requests are never forgotten: the fetched names only grow. */
  lemma {:induction false} RunRequestsGrow<P, E>(m: App<P, E>, events: seq<Event<P, E>>)
    ensures m.requests <= Run(m, events).requests
    decreases |events|
  {
    if events != [] {
      RunRequestsGrow(Step(m, events[0]), events[1..]);
    }
  }

  /** A request that has settled never becomes outstanding again: each request settles once. */
  lemma {:induction false} SettledStaysSettled<P, E>(m: App<P, E>, events: seq<Event<P, E>>, id: nat)
    requires id < |m.requests| && id !in m.outstanding
    ensures id !in Run(m, events).outstanding
    decreases |events|
  {
    if events != [] {
      SettledStaysSettled(Step(m, events[0]), events[1..], id);
    }
  }

  /** Once a request has been issued, the status never returns to idle. */
  lemma NeverIdleAgain<P, E>(m: App<P, E>, events: seq<Event<P, E>>)
    requires Consistent(m) && m.requests != []
    ensures Run(m, events).info.status != Idle
  {
    RunPreservesConsistent(m, events);
    RunRequestsGrow(m, events);
  }

  /**
   * The last completion decides: whatever came before, the settlement of
   * any outstanding request, superseded or not, sets the status from its
   * own outcome and keeps the other field.
   */
  lemma LastCompletionDecides<P, E>(m: App<P, E>, events: seq<Event<P, E>>, c: Event<P, E>)
    requires c.Resolve? || c.Reject?
    requires c.id in Run(m, events).outstanding
    ensures var before := Run(m, events).info;
            var after := Run(m, events + [c]).info;
            && (c.Resolve? ==> after == FetchState(Resolved, Some(c.pokemon), before.error))
            && (c.Reject? ==> after == FetchState(Rejected, before.pokemon, Some(c.error)))
  {
    RunAppend(m, events, [c]);
  }

  /**
   * A stale response is shown: after submitting `a` and then `b`, the
   * response to `a` resolves the state and is rendered while `b` is the
   * current name and its own request is still outstanding.
   */
  lemma StaleResponseShown<P, E>(a: string, b: string, p: P)
    requires a != "" && b != "" && a != b
    ensures var m := Run(InitialApp<P, E>(), [Submit(a), Submit(b), Resolve(0, p)]);
            && m.name == b && m.requests == [a, b] && m.outstanding == {1}
            && m.info == FetchState(Resolved, Some(p), None)
            && Render(m.info, m.name) == DataView(Some(p))
  {
    var m0 := InitialApp<P, E>();
    var m1 := Step(m0, Submit(a));
    var m2 := Step(m1, Submit(b));
    assert Run(m0, [Submit(a), Submit(b), Resolve(0, p)]) == Run(m1, [Submit(b), Resolve(0, p)]);
    assert Run(m1, [Submit(b), Resolve(0, p)]) == Run(m2, [Resolve(0, p)]);
  }

  /**
   * The record can hold both a pokemon and an error: a rejection of the
   * first request followed by the resolution of the second leaves the
   * error of the first in place.
   */
  lemma PokemonAndErrorTogether<P, E>(a: string, b: string, e: E, p: P)
    requires a != "" && b != "" && a != b
    ensures Run(InitialApp<P, E>(), [Submit(a), Submit(b), Reject(0, e), Resolve(1, p)]).info
            == FetchState(Resolved, Some(p), Some(e))
  {
    var m0 := InitialApp<P, E>();
    var m1 := Step(m0, Submit(a));
    var m2 := Step(m1, Submit(b));
    var m3 := Step(m2, Reject(0, e));
    assert Run(m0, [Submit(a), Submit(b), Reject(0, e), Resolve(1, p)]) == Run(m1, [Submit(b), Reject(0, e), Resolve(1, p)]);
    assert Run(m1, [Submit(b), Reject(0, e), Resolve(1, p)]) == Run(m2, [Reject(0, e), Resolve(1, p)]);
    assert Run(m2, [Reject(0, e), Resolve(1, p)]) == Run(m3, [Resolve(1, p)]);
    assert Run(m3, [Resolve(1, p)]) == Step(m3, Resolve(1, p));
  }

  /**
   * A field of the record that holds a value either held it before the
   * events or was set by one of them: a pokemon by a resolution, an error
   * by a rejection.
   */
  lemma {:induction false} FieldsDelivered<P, E>(m: App<P, E>, events: seq<Event<P, E>>)
    ensures var s := Run(m, events).info;
            && (s.pokemon.Some? ==>
                  || s.pokemon == m.info.pokemon
                  || exists i :: 0 <= i < |events| && events[i].Resolve? && s.pokemon == Some(events[i].pokemon))
            && (s.error.Some? ==>
                  || s.error == m.info.error
                  || exists i :: 0 <= i < |events| && events[i].Reject? && s.error == Some(events[i].error))
    decreases |events|
  {
    if events != [] {
      var m1 := Step(m, events[0]);
      var rest := events[1..];
      var s := Run(m, events).info;
      assert s == Run(m1, rest).info;
      FieldsDelivered(m1, rest);
      if s.pokemon.Some? && s.pokemon != m1.info.pokemon {
        var i :| 0 <= i < |rest| && rest[i].Resolve? && s.pokemon == Some(rest[i].pokemon);
        assert events[i + 1] == rest[i];
      }
      if s.error.Some? && s.error != m1.info.error {
        var i :| 0 <= i < |rest| && rest[i].Reject? && s.error == Some(rest[i].error);
        assert events[i + 1] == rest[i];
      }
    }
  }

  /**
   * What a reachable app renders: the prompt exactly until the first
   * request; a data view shows a pokemon that a resolution delivered, and
   * a thrown error is one that a rejection delivered.
   */
  lemma RenderReachable<P, E>(events: seq<Event<P, E>>)
    ensures var m := Run(InitialApp<P, E>(), events);
            var v := Render(m.info, m.name);
            && (v == Prompt("Submit a pokemon") <==> m.requests == [])
            && (v.DataView? ==> exists i :: 0 <= i < |events| && events[i].Resolve? && v.pokemon == Some(events[i].pokemon))
            && (v.Thrown? ==> exists i :: 0 <= i < |events| && events[i].Reject? && v.error == Some(events[i].error))
  {
    ReachableConsistent(events);
    FieldsDelivered(InitialApp<P, E>(), events);
  }

  /** The running app: `App`'s name state and the mounted `PokemonInfo`. */
  class PokemonApp<P, E> {
    var pokemonName: string
    var state: FetchState<P, E>
    var requests: seq<string>
    var outstanding: set<nat>

    function Model(): App<P, E>
      reads this
    {
      App(pokemonName, state, requests, outstanding)
    }

    constructor ()
      ensures Model() == InitialApp()
      ensures pokemonName == "" && state == FetchState(Idle, None, None)
    {
      pokemonName := "";
      state := InitialState();
      requests := [];
      outstanding := {};
    }

    /** The effect: with a non-empty name, go pending and issue one request. */
    method RunEffect()
      modifies this
      ensures Model() == Effect(old(Model()))
    {
      if pokemonName == "" {
        return;
      }
      state := PendingState();
      outstanding := outstanding + {|requests|};
      requests := requests + [pokemonName];
    }

    /** `handleSubmit`. */
    method HandleSubmit(newPokemonName: string)
      modifies this
      ensures Model() == Step(old(Model()), Submit(newPokemonName))
    {
      if newPokemonName != pokemonName {
        pokemonName := newPokemonName;
        RunEffect();
      }
    }

    /** `handleReset`. */
    method HandleReset()
      modifies this
      ensures Model() == Step(old(Model()), Reset)
    {
      if pokemonName != "" {
        pokemonName := "";
        RunEffect();
      }
    }

    /** The `then` callback of request `id`. */
    method OnResolve(id: nat, pokemon: P)
      modifies this
      ensures Model() == Step(old(Model()), Resolve(id, pokemon))
    {
      if id in outstanding {
        state := WithPokemon(state, pokemon);
        outstanding := outstanding - {id};
      }
    }

    /** The `catch` callback of request `id`. */
    method OnReject(id: nat, error: E)
      modifies this
      ensures Model() == Step(old(Model()), Reject(id, error))
    {
      if id in outstanding {
        state := WithError(state, error);
        outstanding := outstanding - {id};
      }
    }

    /** Routes one event to the handler or callback it stands for. */
    method Dispatch(e: Event<P, E>)
      modifies this
      ensures Model() == Step(old(Model()), e)
    {
      match e {
        case Submit(name) => HandleSubmit(name);
        case Reset => HandleReset();
        case Resolve(id, pokemon) => OnResolve(id, pokemon);
        case Reject(id, error) => OnReject(id, error);
      }
    }

    /** The event loop: handles the events in order. */
    method Drive(events: seq<Event<P, E>>)
      modifies this
      ensures Model() == Run(old(Model()), events)
    {
      ghost var start := Model();
      var i := 0;
      while i < |events|
        invariant 0 <= i <= |events|
        invariant Model() == Run(start, events[..i])
      {
        RunAppend(start, events[..i], [events[i]]);
        assert events[..i + 1] == events[..i] + [events[i]];
        Dispatch(events[i]);
        i := i + 1;
      }
      assert events[..i] == events;
    }
  }
}
