/** The emulated authenticator: a session that holds at most one player
    and its access token, changed only by the four operations below. */
module Authentication {
  import opened Wrappers

  /** The authenticated player; only its identifier matters here. */
  datatype UnisavePlayer = UnisavePlayer(id: string)

  const EmulatedPlayerId: string := "emulated-player-id"
  const EmulatedAccessToken: string := "emulated-player-access-token"

  /** The abstract value of an authenticator: its player and its token. */
  datatype Session = Session(player: Option<UnisavePlayer>, accessToken: Option<string>) {

    /** The invariant: the player is null exactly when the token is. */
    predicate Valid() {
      player.None? <==> accessToken.None?
    }

    /** Derived from the player, never stored on its own. */
    predicate LoggedIn(): (r: bool)
      ensures r <==> player != None
      ensures Valid() ==> (r <==> accessToken != None)
    {
      player.Some?
    }
  }

  /** The state of a fresh authenticator, and the state after a logout. */
  const LoggedOut: Session := Session(None, None)

  /** The state after the emulated player has logged in. */
  const EmulatedSession: Session :=
    Session(Some(UnisavePlayer(EmulatedPlayerId)), Some(EmulatedAccessToken))

  /** The operations of the authenticator. */
  datatype Operation =
    | Login(email: string, password: string)
    | Logout
    | Register(email: string, password: string)
    | LoginEmulatedPlayer

  /** True of the operations that assign the fields; Login and Register
      are stubs that leave them alone. */
  predicate ChangesSession(op: Operation) {
    op.Logout? || op.LoginEmulatedPlayer?
  }

  /** The effect of one operation on the session. */
  function Apply(s: Session, op: Operation): (r: Session)
    ensures s.Valid() ==> r.Valid()
    ensures ChangesSession(op) ==> r.Valid() && (r.LoggedIn() <==> op.LoginEmulatedPlayer?)
    ensures !ChangesSession(op) ==> r == s
  {
    match op
    case Login(_, _) => s
    case Logout => LoggedOut
    case Register(_, _) => s
    case LoginEmulatedPlayer => EmulatedSession
  }

  /** The effect of a sequence of operations, applied first to last. */
  function Run(s: Session, ops: seq<Operation>): (r: Session)
    ensures (forall i :: 0 <= i < |ops| ==> !ChangesSession(ops[i])) ==> r == s
    decreases |ops|
  {
    if ops == [] then s else Run(Apply(s, ops[0]), ops[1..])
  }

  /** The last operation in `ops` that assigns the session, if any. */
  function LastChange(ops: seq<Operation>): (r: Option<Operation>)
    ensures r.Some? ==> ChangesSession(r.value) && r.value in ops
    ensures r.Some? ==>
              exists i :: 0 <= i < |ops| && ops[i] == r.value &&
                          forall j :: i < j < |ops| ==> !ChangesSession(ops[j])
    ensures r.None? ==> forall i :: 0 <= i < |ops| ==> !ChangesSession(ops[i])
    decreases |ops|
  {
    if ops == [] then None
    else if ChangesSession(ops[|ops| - 1]) then Some(ops[|ops| - 1])
    else LastChange(ops[..|ops| - 1])
  }

  /** The session that the last session-changing operation leaves behind. */
  function AfterChange(s: Session, last: Option<Operation>): (r: Session) {
    match last
    case None => s
    case Some(op) => Apply(s, op)
  }

  lemma LoggedInIffToken(s: Session)
    requires s.Valid()
    ensures s.LoggedIn() <==> s.accessToken.Some?
  {
  }

  lemma LogoutClears(s: Session)
    ensures Apply(s, Logout) == LoggedOut
    ensures Apply(s, Logout).player.None? && Apply(s, Logout).accessToken.None?
    ensures !Apply(s, Logout).LoggedIn()
  {
  }

  lemma LogoutIdempotent(s: Session)
    ensures Apply(Apply(s, Logout), Logout) == Apply(s, Logout)
  {
  }

  lemma StubsChangeNothing(s: Session, email: string, password: string)
    ensures Apply(s, Login(email, password)) == s
    ensures Apply(s, Register(email, password)) == s
  {
  }

  lemma LoginEmulatedPlayerSets(s: Session)
    ensures Apply(s, LoginEmulatedPlayer).player == Some(UnisavePlayer("emulated-player-id"))
    ensures Apply(s, LoginEmulatedPlayer).accessToken == Some("emulated-player-access-token")
    ensures Apply(s, LoginEmulatedPlayer).LoggedIn()
  {
  }

  lemma LoginEmulatedPlayerIdempotent(s: Session)
    ensures Apply(Apply(s, LoginEmulatedPlayer), LoginEmulatedPlayer) == Apply(s, LoginEmulatedPlayer)
  {
  }

  lemma LoginEmulatedPlayerThenLogout(s: Session)
    ensures Apply(Apply(s, LoginEmulatedPlayer), Logout) == LoggedOut
  {
  }

  /** Running one more operation applies it to the state reached so far. */
  lemma {:induction false} RunSnoc(s: Session, ops: seq<Operation>, op: Operation)
    ensures Run(s, ops + [op]) == Apply(Run(s, ops), op)
    decreases |ops|
  {
    if ops == [] {
      assert [] + [op] == [op];
      assert [op][1..] == [];
    } else {
      assert (ops + [op])[0] == ops[0];
      assert (ops + [op])[1..] == ops[1..] + [op];
      RunSnoc(Apply(s, ops[0]), ops[1..], op);
    }
  }

  /** Every sequence of operations keeps the invariant. */
  lemma {:induction false} RunPreservesValid(s: Session, ops: seq<Operation>)
    requires s.Valid()
    ensures Run(s, ops).Valid()
    decreases |ops|
  {
    if ops != [] {
      RunPreservesValid(Apply(s, ops[0]), ops[1..]);
    }
  }

  /** The state after any sequence of operations is determined by the last
      operation that assigns the session (the stubs do not count). */
  lemma {:induction false} RunDeterminedByLastChange(s: Session, ops: seq<Operation>)
    ensures Run(s, ops) == AfterChange(s, LastChange(ops))
    decreases |ops|
  {
    if ops != [] {
      var init, last := ops[..|ops| - 1], ops[|ops| - 1];
      assert ops == init + [last];
      RunSnoc(s, init, last);
      RunDeterminedByLastChange(s, init);
    }
  }

  /** From a fresh authenticator every reachable state is either logged out
      or the emulated session, and it is logged in exactly when the last
      session-changing operation was LoginEmulatedPlayer. */
  lemma ReachableSessions(ops: seq<Operation>)
    ensures Run(LoggedOut, ops) == LoggedOut || Run(LoggedOut, ops) == EmulatedSession
    ensures Run(LoggedOut, ops).LoggedIn() <==> LastChange(ops) == Some(LoginEmulatedPlayer)
  {
    RunDeterminedByLastChange(LoggedOut, ops);
  }

  /** The authenticator object; its two fields are assigned only by its
      own methods. */
  class EmulatedAuthenticator {
    var player: Option<UnisavePlayer>
    var accessToken: Option<string>

    /** The abstract value: the two fields, as a session. */
    function State(): (s: Session)
      reads this
      ensures s.player == player && s.accessToken == accessToken
    {
      Session(player, accessToken)
    }

    predicate Valid(): (r: bool)
      reads this
      ensures r <==> (player == None <==> accessToken == None)
    {
      State().Valid()
    }

    function LoggedIn(): (r: bool)
      reads this
      ensures r <==> player != None
      ensures Valid() ==> (r <==> accessToken != None)
    {
      State().LoggedIn()
    }

    constructor ()
      ensures Valid() && State() == LoggedOut && !LoggedIn()
    {
      player := None;
      accessToken := None;
    }

    /** A stub: resolves at once and changes nothing. */
    method Login(email: string, password: string) returns (promise: ())
      ensures State() == Apply(old(State()), Operation.Login(email, password))
      ensures State() == old(State())
    {
      promise := ();
    }

    method Logout() returns (promise: ())
      modifies this
      ensures State() == Apply(old(State()), Operation.Logout)
      ensures Valid() && !LoggedIn()
    {
      player := None;
      accessToken := None;
      promise := ();
    }

    /** A stub: resolves at once and changes nothing. */
    method Register(email: string, password: string) returns (promise: ())
      ensures State() == Apply(old(State()), Operation.Register(email, password))
      ensures State() == old(State())
    {
      promise := ();
    }

    method LoginEmulatedPlayer()
      modifies this
      ensures State() == Apply(old(State()), Operation.LoginEmulatedPlayer)
      ensures Valid() && LoggedIn()
      ensures player == Some(UnisavePlayer(EmulatedPlayerId))
      ensures accessToken == Some(EmulatedAccessToken)
    {
      player := Some(UnisavePlayer(EmulatedPlayerId));
      accessToken := Some(EmulatedAccessToken);
    }
  }
}
