# Emulated authenticator and entity context

A Dafny model of two pieces of client-side state logic of the Unisave
game-backend SDK:

- `EmulatedAuthenticator` (module `Authentication`): the session used when the
  server is emulated locally. It holds a nullable player and a nullable access
  token; `LoggedIn` is derived from the player. `Logout` clears both fields,
  `LoginEmulatedPlayer` sets both to the fixed emulated player
  (`"emulated-player-id"`) and token (`"emulated-player-access-token"`), and
  `Login` and `Register` are stubs that return a resolved promise and change
  nothing. The object is a class whose methods are specified by the pure
  transition function `Apply` on the abstract `Session` value; the invariant
  "the player is null exactly when the token is" is proved for every operation
  and for every sequence of operations from the fresh state.
- `EntityContext` (module `Framework`): built from a sequence of players, it
  keeps the deduplicated set of their identifiers (a `const` field, so it is
  fixed after construction). `RequestAll` queries the entity store with exactly
  that set and passes the results to its callback; `Request` passes the first
  result, or null when there is none, and stops reading after the first one.

Modelling choices:

- Null references are `Option` values (`Wrappers.Option`).
- A promise that is already resolved is the unit value `()`.
- The entity store (`UnisaveCloud.Backend.RequestEntity`) is a function
  parameter `store: EntityQuery -> seq<T>`; its filtering is not modelled.
- A callback is modelled by the sequence of arguments it was invoked with, in
  order. Each method returns this sequence, and the backend is taken to call
  the callback synchronously, exactly once.
- `FirstOrNull` is the anonymous callback that `Request` hands to `RequestAll`.
  Its `foreach` loop with the early `return` is a `for` loop that returns on
  its first iteration. Its `visited` result is the set of result positions the
  loop read.

The `Auth` facade documents `Login` as "Attempt player login" and `Register`
as "Attempt to register a new player" (Assets/Unisave/NewScripts/Facades/Auth.cs:13-14,
29-30). `EmulatedAuthenticator.Login` and `Register`, however, are TODO stubs
that change nothing (Assets/Unisave/NewScripts/Authentication/EmulatedAuthenticator.cs:26, 40),
and the model follows them. So the only way to log in here is
`LoginEmulatedPlayer`.

## Model

| member | source | states |
|---|---|---|
| `Authentication.Session.LoggedIn` | Assets/Unisave/NewScripts/Authentication/EmulatedAuthenticator.cs:16 | True exactly when the player is non-null. In a valid session, that is also exactly when the token is non-null. |
| `Authentication.Run` | Assets/Unisave/NewScripts/Authentication/EmulatedAuthenticator.cs:24-51 | Applies a sequence of operations first to last. A sequence made only of `Login` and `Register` stubs leaves the session unchanged. |
| `Authentication.Apply` | Assets/Unisave/NewScripts/Authentication/EmulatedAuthenticator.cs:24-51 | An operation applied to a valid session gives a valid session. `Logout` and `LoginEmulatedPlayer` give a valid session from any state, logged in exactly for `LoginEmulatedPlayer`. `Login` and `Register` leave the session as it was. |
| `Authentication.LoggedInIffToken` | Assets/Unisave/NewScripts/Authentication/EmulatedAuthenticator.cs:11-21 | In a valid session, logged in (player non-null) holds exactly when the access token is non-null. |
| `Authentication.LogoutClears` | Assets/Unisave/NewScripts/Authentication/EmulatedAuthenticator.cs:31-36 | After logout, player and token are null and the session is not logged in, whatever the prior state. |
| `Authentication.LogoutIdempotent` | Assets/Unisave/NewScripts/Authentication/EmulatedAuthenticator.cs:31-36 | Logging out twice gives the same state as logging out once. |
| `Authentication.StubsChangeNothing` | Assets/Unisave/NewScripts/Authentication/EmulatedAuthenticator.cs:24-42 | `Login` and `Register` leave player and token unchanged for all inputs. |
| `Authentication.LoginEmulatedPlayerSets` | Assets/Unisave/NewScripts/Authentication/EmulatedAuthenticator.cs:47-51 | After `LoginEmulatedPlayer` the player has ID "emulated-player-id", the token is "emulated-player-access-token", and the session is logged in. |
| `Authentication.LoginEmulatedPlayerIdempotent` | Assets/Unisave/NewScripts/Authentication/EmulatedAuthenticator.cs:47-51 | Logging in the emulated player twice gives the same state as doing it once. |
| `Authentication.LoginEmulatedPlayerThenLogout` | Assets/Unisave/NewScripts/Authentication/EmulatedAuthenticator.cs:31-51 | `LoginEmulatedPlayer` followed by `Logout` returns to the logged-out state. |
| `Authentication.LastChange` | Assets/Unisave/NewScripts/Authentication/EmulatedAuthenticator.cs:31-51 | The operation it picks assigns the session and occurs in the sequence at a position after which no operation assigns the session: it is the last such operation. When it finds none, no operation in the sequence assigns the session. |
| `Authentication.RunSnoc` | Assets/Unisave/NewScripts/Authentication/EmulatedAuthenticator.cs:24-51 | Running one more operation is the same as applying it to the state reached so far. |
| `Authentication.RunPreservesValid` | Assets/Unisave/NewScripts/Authentication/EmulatedAuthenticator.cs:11-51 | Every sequence of operations from a valid session keeps player-null exactly when token-null. |
| `Authentication.RunDeterminedByLastChange` | Assets/Unisave/NewScripts/Authentication/EmulatedAuthenticator.cs:24-51 | The state after any sequence of operations is the effect of its last `Logout` or `LoginEmulatedPlayer`. With neither, it is the starting state. This is an independent reference definition of the state machine. |
| `Authentication.ReachableSessions` | Assets/Unisave/NewScripts/Authentication/EmulatedAuthenticator.cs:11-51 | From the default state, every reachable state is logged out or the emulated session. It is logged in exactly when the last session-changing operation was `LoginEmulatedPlayer`. |
| `Authentication.EmulatedAuthenticator.State` | Assets/Unisave/NewScripts/Authentication/EmulatedAuthenticator.cs:11-21 | The abstract session holds exactly the object's player and access token fields. |
| `Authentication.EmulatedAuthenticator.Valid` | Assets/Unisave/NewScripts/Authentication/EmulatedAuthenticator.cs:11-21 | The object invariant: true exactly when the player field is null if and only if the token field is null. |
| `Authentication.EmulatedAuthenticator.LoggedIn` | Assets/Unisave/NewScripts/Authentication/EmulatedAuthenticator.cs:16 | True exactly when the player field is non-null. It is computed from the field and never stored. When the invariant holds, it is also exactly when the token is non-null. |
| `Authentication.EmulatedAuthenticator.constructor` | Assets/Unisave/NewScripts/Authentication/EmulatedAuthenticator.cs:11-21 | A new authenticator has null player and token, is valid, and is not logged in. |
| `Authentication.EmulatedAuthenticator.Login` | Assets/Unisave/NewScripts/Authentication/EmulatedAuthenticator.cs:24-28 | Returns a resolved result. The new state is `Apply(old, Login)`, which is the old state. |
| `Authentication.EmulatedAuthenticator.Logout` | Assets/Unisave/NewScripts/Authentication/EmulatedAuthenticator.cs:31-36 | Returns a resolved result. The new state is `Apply(old, Logout)`, which is valid and not logged in. |
| `Authentication.EmulatedAuthenticator.Register` | Assets/Unisave/NewScripts/Authentication/EmulatedAuthenticator.cs:38-42 | Returns a resolved result. The new state is `Apply(old, Register)`, which is the old state. |
| `Authentication.EmulatedAuthenticator.LoginEmulatedPlayer` | Assets/Unisave/NewScripts/Authentication/EmulatedAuthenticator.cs:47-51 | The new state is `Apply(old, LoginEmulatedPlayer)`. It is valid and logged in, with the emulated player ID and token. |
| `Framework.IdSet` | Assets/Unisave/Scripts/Framework/EntityContext.cs:15 | An ID is in the set exactly when some player in the input has it. An empty input gives the empty set. |
| `Framework.IdSetCons` | Assets/Unisave/Scripts/Framework/EntityContext.cs:15 | The ID set of a non-empty sequence is the first player's ID added to the ID set of the rest. |
| `Framework.IdSetSize` | Assets/Unisave/Scripts/Framework/EntityContext.cs:15 | The set is never larger than the input sequence. |
| `Framework.IdSetSizeExact` | Assets/Unisave/Scripts/Framework/EntityContext.cs:15 | The set has exactly one element per player if and only if no ID repeats, so duplicates collapse. |
| `Framework.IdSetOrderIrrelevant` | Assets/Unisave/Scripts/Framework/EntityContext.cs:15 | Two player sequences with the same members, in any order and multiplicity, give the same ID set. |
| `Framework.EntityContext.constructor` | Assets/Unisave/Scripts/Framework/EntityContext.cs:11-16 | The stored set holds exactly the IDs of the given players. It is no larger than the input, and it is a `const`, never reassigned. |
| `Framework.EntityContext.RequestAll` | Assets/Unisave/Scripts/Framework/EntityContext.cs:18-24 | The callback is invoked exactly once, with the store's result for a query built from exactly the stored ID set. |
| `Framework.EntityContext.Request` | Assets/Unisave/Scripts/Framework/EntityContext.cs:26-36 | The callback is invoked exactly once: with the first result of the scoped query, or with null when there is none. Only position 0 is read. |
| `Framework.FirstOrNull` | Assets/Unisave/Scripts/Framework/EntityContext.cs:28-35 | The loop invokes its callback exactly once: with the first element if there is one, else with null. It reads position 0 when the sequence is non-empty and nothing otherwise. |

## Left out

- The promise library and asynchrony: promises are already resolved (`()`), and callbacks run synchronously.
- The entity store and its filtering by player (`EntityQuery.WithPlayers`, `RequestEntity`): the store is a function parameter, so no property about which entities it returns is claimed.
- The `Auth` facade (Assets/Unisave/NewScripts/Facades/Auth.cs): it only forwards to a global authenticator instance, and the authenticator itself is modelled.
- `BackendTestCase`, `EmailLoginForm` and `SeoEntity`: test setup, UI with remote calls, and a plain data declaration, with no logic of the modelled components.
- Credential checks, failed logins, a facet registry and dispatcher, and authorization faults: none of them exist in the modelled code.
- Null inputs to `EntityContext`: players are non-null values with non-null IDs, and result sequences are non-null values. So the model does not capture these source cases (Assets/Unisave/Scripts/Framework/EntityContext.cs:15, 29, 31):
  - a null player sequence, which makes `Select` throw;
  - a null player, which throws at `x.ID`;
  - a null ID, which the `HashSet` stores;
  - a null result sequence, which makes the `foreach` throw;
  - a null first entity, which reaches the callback as null, just like an empty result.
- Aliasing of the ID set: the source passes its own mutable `HashSet` by reference to `EntityQuery.WithPlayers`, and the field is not `readonly` (Assets/Unisave/Scripts/Framework/EntityContext.cs:11, 21). The model's `const playerIds` is an immutable value. "Fixed after construction" therefore assumes the query never changes the set it is given.
- Object identity of the player: `LoginEmulatedPlayer` allocates a new `UnisavePlayer` on each call (Assets/Unisave/NewScripts/Authentication/EmulatedAuthenticator.cs:49). The model's player is a value, so `LoginEmulatedPlayerIdempotent` states equal IDs and tokens, not the same object.
- Private setters: the fields of `EmulatedAuthenticator` are assigned only by its own methods, but Dafny fields are not access-restricted, so this is a convention of the model.
