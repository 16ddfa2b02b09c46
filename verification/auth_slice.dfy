/** The client's authentication state (`authSlice`): a small state machine
    with three transitions, whose invariant is that the client never believes
    it is signed in without a token. */
module AuthSlice {
  import opened Opt
  import opened ApiDto

  datatype AuthState = AuthState(user: Option<UserDto>, token: Option<string>, isAuthenticated: bool,
                                 isHydrated: bool)

  /** Nobody signed in, and the saved session not yet read back. */
  const Initial: AuthState := AuthState(None, None, false, false)

  datatype Action =
    | SetCredentials(payload: AuthResponseDto)
    | Logout
    | SetHydrated

  /** The reducer. */
  function Reduce(s: AuthState, a: Action): (s': AuthState)
    ensures s'.isHydrated
    ensures a.SetCredentials? ==>
              && s'.user == a.payload.user && s'.token == a.payload.token
              && (s'.isAuthenticated <==> Truthy(a.payload.token))
    ensures a.Logout? ==> s'.user.None? && s'.token.None? && !s'.isAuthenticated
    ensures a.SetHydrated? ==> s'.user == s.user && s'.token == s.token && s'.isAuthenticated == s.isAuthenticated
  {
    match a
    case SetCredentials(payload) =>
      AuthState(payload.user, payload.token, Truthy(payload.token), true)
    case Logout => AuthState(None, None, false, true)
    case SetHydrated => s.(isHydrated := true)
  }

  /** The state after dispatching `actions` in order. */
  function Run(s: AuthState, actions: seq<Action>): AuthState
    decreases |actions|
  {
    if |actions| == 0 then s else Run(Reduce(s, actions[0]), actions[1..])
  }

  /** Signed in only with a non-empty token. */
  predicate Inv(s: AuthState) {
    s.isAuthenticated ==> Truthy(s.token)
  }

  lemma InitialState()
    ensures Initial.user.None? && Initial.token.None? && !Initial.isAuthenticated && !Initial.isHydrated
    ensures Inv(Initial)
  {
  }

  /** Every transition keeps the invariant. */
  lemma ReduceKeepsInv(s: AuthState, a: Action)
    requires Inv(s)
    ensures Inv(Reduce(s, a))
  {
  }

  /** The invariant holds after any sequence of transitions. */
  lemma {:induction false} RunKeepsInv(s: AuthState, actions: seq<Action>)
    requires Inv(s)
    ensures Inv(Run(s, actions))
    decreases |actions|
  {
    if |actions| > 0 {
      ReduceKeepsInv(s, actions[0]);
      RunKeepsInv(Reduce(s, actions[0]), actions[1..]);
    }
  }

  /** Every reachable state satisfies the invariant. */
  lemma ReachableInv(actions: seq<Action>)
    ensures Inv(Run(Initial, actions))
  {
    RunKeepsInv(Initial, actions);
  }

  /** Once hydrated, always hydrated; one action is enough to hydrate. */
  lemma {:induction false} HydratedStays(s: AuthState, actions: seq<Action>)
    requires s.isHydrated || |actions| > 0
    ensures Run(s, actions).isHydrated
    decreases |actions|
  {
    if |actions| > 0 {
      var s1 := Reduce(s, actions[0]);
      if |actions| > 1 {
        HydratedStays(s1, actions[1..]);
      } else {
        assert Run(s1, actions[1..]) == s1;
      }
    }
  }

  /** Logging out after any history leaves nobody signed in; signing in with a
      token afterwards is remembered verbatim. */
  lemma LogoutThenLogin(actions: seq<Action>, payload: AuthResponseDto)
    ensures var s := Run(Initial, actions + [Logout]);
            !s.isAuthenticated && s.token.None? && s.isHydrated
    ensures var s := Run(Initial, actions + [Logout, SetCredentials(payload)]);
            s.token == payload.token && s.user == payload.user && (s.isAuthenticated <==> Truthy(payload.token))
  {
    RunAppend(Initial, actions, [Logout]);
    RunAppend(Initial, actions, [Logout, SetCredentials(payload)]);
    var last: seq<Action> := [Logout, SetCredentials(payload)];
    assert last[1..] == [SetCredentials(payload)];
    assert last[1..][1..] == [];
    var s0 := Run(Initial, actions);
    var s1 := Reduce(Reduce(s0, Logout), SetCredentials(payload));
    assert Run(s0, last) == Run(Reduce(s0, Logout), [SetCredentials(payload)]);
    assert Run(Reduce(s0, Logout), [SetCredentials(payload)]) == Run(s1, []);
  }

  /** Running a concatenation runs the parts in turn. */
  lemma {:induction false} RunAppend(s: AuthState, a: seq<Action>, b: seq<Action>)
    ensures Run(s, a + b) == Run(Run(s, a), b)
    decreases |a|
  {
    if |a| == 0 {
      assert a + b == b;
    } else {
      assert (a + b)[1..] == a[1..] + b;
      RunAppend(Reduce(s, a[0]), a[1..], b);
    }
  }
}
