/** The entity context: entity queries restricted to the entities of a
    fixed scope of players. The entity store behind the query is a
    parameter of the operations (a function from a query to its results),
    and a callback is modelled by the sequence of arguments it was invoked
    with, in order. */
module Framework {
  import opened Wrappers

  datatype Player = Player(id: string)

  /** The query handed to the entity store: entities of the players whose
      identifiers are in the set. */
  datatype EntityQuery = WithPlayers(playerIds: set<string>)

  /** The identifiers of the players at positions 0 to |players| - 1 are
      pairwise different. */
  predicate DistinctIds(players: seq<Player>) {
    forall i, j :: 0 <= i < j < |players| ==> players[i].id != players[j].id
  }

  /** The deduplicated set of the players' identifiers. */
  function IdSet(players: seq<Player>): (ids: set<string>)
    ensures forall id :: id in ids <==> exists i :: 0 <= i < |players| && players[i].id == id
    ensures players == [] ==> ids == {}
  {
    set i | 0 <= i < |players| :: players[i].id
  }

  /** Peeling off the first player adds its identifier to the rest's. */
  lemma IdSetCons(players: seq<Player>)
    requires players != []
    ensures IdSet(players) == {players[0].id} + IdSet(players[1..])
  {
  }

  /** Repeated identifiers collapse: the set is never larger than the input. */
  lemma {:induction false} IdSetSize(players: seq<Player>)
    ensures |IdSet(players)| <= |players|
    decreases |players|
  {
    if players != [] {
      IdSetCons(players);
      IdSetSize(players[1..]);
    }
  }

  /** The set has one element per player exactly when no identifier repeats. */
  lemma {:induction false} IdSetSizeExact(players: seq<Player>)
    ensures |IdSet(players)| == |players| <==> DistinctIds(players)
    decreases |players|
  {
    if players != [] {
      var head, tail := players[0], players[1..];
      IdSetCons(players);
      IdSetSize(tail);
      IdSetSizeExact(tail);
      if head.id in IdSet(tail) {
        var i :| 0 <= i < |tail| && tail[i].id == head.id;
        assert players[0].id == players[i + 1].id;
      } else {
        if DistinctIds(tail) {
          forall i, j | 0 <= i < j < |players|
            ensures players[i].id != players[j].id
          {
            if i == 0 {
              assert players[j].id == tail[j - 1].id;
            } else {
              assert players[i].id == tail[i - 1].id && players[j].id == tail[j - 1].id;
            }
          }
        } else {
          var i, j :| 0 <= i < j < |tail| && tail[i].id == tail[j].id;
          assert players[i + 1].id == players[j + 1].id;
        }
      }
    }
  }

  /** The scope depends only on which players occur, not on their order or
      on how often they occur. */
  lemma IdSetOrderIrrelevant(players: seq<Player>, others: seq<Player>)
    requires forall p :: p in players <==> p in others
    ensures IdSet(players) == IdSet(others)
  {
    forall id | id in IdSet(players)
      ensures id in IdSet(others)
    {
      var i :| 0 <= i < |players| && players[i].id == id;
      assert players[i] in others;
    }
    forall id | id in IdSet(others)
      ensures id in IdSet(players)
    {
      var i :| 0 <= i < |others| && others[i].id == id;
      assert others[i] in players;
    }
  }

  class EntityContext {
    /** Assigned by the constructor and never again. */
    const playerIds: set<string>

    constructor (players: seq<Player>)
      ensures playerIds == IdSet(players)
      ensures forall id :: id in playerIds <==> exists p :: p in players && p.id == id
      ensures |playerIds| <= |players|
    {
      playerIds := IdSet(players);
      IdSetSize(players);
    }

    /** Queries the store with exactly the scope and invokes the callback
        once, with the store's results unchanged. */
    method RequestAll<T>(store: EntityQuery -> seq<T>) returns (invocations: seq<seq<T>>)
      ensures |invocations| == 1
      ensures invocations[0] == store(WithPlayers(playerIds))
    {
      var entities := store(WithPlayers(playerIds));
      invocations := [entities];
    }

    /** Invokes the callback once, with the first result of the scoped
        query, or with null when there is none; `visited` holds the
        positions of the results that were read. */
    method Request<T>(store: EntityQuery -> seq<T>) returns (invocations: seq<Option<T>>, visited: set<nat>)
      ensures |invocations| == 1
      ensures var entities := store(WithPlayers(playerIds));
        invocations[0] == if entities == [] then None else Some(entities[0])
      ensures visited <= {0}
    {
      var forwarded := RequestAll(store);
      invocations, visited := FirstOrNull(forwarded[0]);
    }
  }

  /** The callback that Request hands to RequestAll: it walks the results,
      invokes its own callback with the first one and stops; it invokes it
      with null after the walk when there was none. `visited` holds the
      positions the walk read. */
  method FirstOrNull<T>(entities: seq<T>) returns (invocations: seq<Option<T>>, visited: set<nat>)
    ensures |invocations| == 1
    ensures entities != [] ==> invocations[0] == Some(entities[0])
    ensures entities == [] ==> invocations[0] == None
    ensures visited == if entities == [] then {} else {0}
  {
    invocations, visited := [], {};
    for i := 0 to |entities|
      invariant i == 0
      invariant invocations == [] && visited == {}
    {
      visited := visited + {i};
      invocations := invocations + [Some(entities[i])];
      return;
    }
    invocations := invocations + [None];
  }
}
