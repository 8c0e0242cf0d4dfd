/** The `auth` slice of the Redux store (src/store/auth.ts). Each reducer
    returns a whole new state. `None` stands for a token that is undefined or
    null. */
module AuthStore {
  import opened Wrappers

  datatype AuthState = AuthState(token: Option<string>, refreshToken: Option<string>)

  /** Actions of the slice, as dispatched by the request pipeline. */
  datatype AuthAction = UpdateAuthState(payload: AuthState) | Logout

  const InitialState: AuthState := AuthState(None, None)

  /** A token counts only when it is truthy: present and not empty. */
  predicate Truthy(t: Option<string>) {
    t.Some? && t.value != ""
  }

  /** The slice reducer: `updateAuthState` replaces the state with its payload,
      `logout` restores the initial state. */
  function Reduce(state: AuthState, action: AuthAction): (next: AuthState)
    ensures action.UpdateAuthState? ==> next == action.payload
    ensures action.Logout? ==> next.token.None? && next.refreshToken.None?
  {
    match action
    case UpdateAuthState(payload) => payload
    case Logout => InitialState
  }

  /** `selectToken`. */
  function SelectToken(state: AuthState): Option<string> {
    state.token
  }

  /** `useIsAuthenticated`: `!!selectToken(state)`. */
  predicate IsAuthenticated(state: AuthState) {
    Truthy(SelectToken(state))
  }

  /** Logging out forgets the session whatever it was, so it is idempotent
      and leaves the user unauthenticated. */
  lemma LogoutResets(s: AuthState, t: AuthState)
    ensures Reduce(s, Logout) == Reduce(t, Logout) == InitialState
    ensures Reduce(Reduce(s, Logout), Logout) == Reduce(s, Logout)
    ensures !IsAuthenticated(Reduce(s, Logout))
  {
  }

  /** `updateAuthState` does not merge: a field missing from the payload is
      missing afterwards, whatever the previous state held. */
  lemma UpdateReplaces(s: AuthState, payload: AuthState)
    ensures Reduce(s, UpdateAuthState(payload)).refreshToken == payload.refreshToken
    ensures IsAuthenticated(Reduce(s, UpdateAuthState(payload))) <==> Truthy(payload.token)
  {
  }
}
