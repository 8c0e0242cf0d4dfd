/** `useAppState` (src/utils/useAppState.ts): the application's lifecycle
    status and whether the last change brought it to the foreground. */
module AppState {

  /** `AppStateStatus` of React Native. */
  datatype Status = Active | Background | Inactive | Unknown | Extension

  datatype State = State(status: Status, foreground: bool)

  /** The state before any change: the status at start-up, counted as being
      in the foreground whatever that status is. */
  function Initial(current: Status): (r: State)
    ensures r.status == current && r.foreground
  {
    State(current, true)
  }

  /** `appStateChange(next)` applied to the previous state. */
  function Change(prev: State, next: Status): State {
    State(next, prev.status != Active && next == Active)
  }

  /** The state after a sequence of changes. */
  function After(s: State, changes: seq<Status>): State
    decreases |changes|
  {
    if changes == [] then s else After(Change(s, changes[0]), changes[1..])
  }

  /** After at least one change the status is the last one reported, and the
      app is in the foreground exactly when that last change moved it from a
      non-active status to `active`: staying active, or moving to any other
      status, is not a return to the foreground. */
  lemma {:induction false} ForegroundOnReturn(s: State, changes: seq<Status>)
    requires |changes| >= 1
    ensures var last := changes[|changes| - 1];
            var before := if |changes| == 1 then s.status else changes[|changes| - 2];
            After(s, changes).status == last &&
            (After(s, changes).foreground <==> before != Active && last == Active)
    decreases |changes|
  {
    if |changes| > 1 {
      ForegroundOnReturn(Change(s, changes[0]), changes[1..]);
    }
  }

  /** The state the hook holds. */
  class AppStateHook {
    var appState: State

    constructor (current: Status)
      ensures appState == Initial(current)
    {
      appState := Initial(current);
    }

    /** The `change` listener: the updater runs on the previous state. */
    method AppStateChange(nextAppState: Status)
      modifies this
      ensures appState == Change(old(appState), nextAppState)
      ensures appState.status == nextAppState
      ensures appState.foreground <==> old(appState).status != Active && nextAppState == Active
    {
      var newState := appState.(status := nextAppState);
      newState := newState.(foreground := appState.status != Active && nextAppState == Active);
      appState := newState;
    }
  }
}
