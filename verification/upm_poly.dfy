/**
 * The `upmpoly` smart contract: an asset registry of players kept in the
 * world state. Its transactions are `InitLedger`, `AssetExists` and
 * `GetAllPlayers`; `CreatePlayer` is a helper that runs inside a transaction.
 * Each is a pure function of the committed store; one that writes also
 * returns the store it leaves behind.
 */
module UpmPoly {
  import opened Wrappers
  import opened JavaLang
  import opened Players
  import opened KeyOrder
  import opened WorldState

  /** The contract's error catalogue. `AssetNotFound` is declared but never raised by these transactions. */
  datatype ErrorCode = AssetNotFound | AssetAlreadyExists

  /** A `ChaincodeException`: its error code and the asset key its message names. */
  datatype ChaincodeError = ChaincodeError(code: ErrorCode, asset: string)

  datatype Result<+T> = Success(value: T) | Failure(error: ChaincodeError)

  /** What a submitted transaction returns together with the world state it leaves. */
  datatype Outcome<+T> = Outcome(result: Result<T>, store: Store)

  /** A key holds an asset when the value stored there is neither null nor the empty string. */
  function AssetExists(store: Store, number: string): (present: bool)
    ensures present <==> number in store && store[number].Encoded?
  {
    var json := GetStringState(store, number);
    json.Some? && json.value != Empty
  }

  /**
   * `Player(ctx, number, name, money)`, a helper that is not a transaction of
   * its own and runs inside its caller's. Its existence test reads the
   * committed world state `committed` (a read in a Fabric transaction does not
   * see that transaction's own writes); its write goes to `pending`, the state
   * the enclosing transaction will commit. It refuses a key that already holds
   * an asset; otherwise it writes a fresh, un-eliminated player keyed and
   * identified by `number` and returns it. `money` is taken as given.
   */
  function CreatePlayer(committed: Store, pending: Store, number: string, name: JString, money: Int32): (o: Outcome<Player>)
    ensures o.result.Failure? <==> AssetExists(committed, number)
    ensures o.result.Failure? ==>
      o.result.error == ChaincodeError(AssetAlreadyExists, number) && o.store == pending
    ensures o.result.Success? ==>
      && o.result.value.playerID == Str(number)
      && o.result.value.name == name
      && o.result.value.credit == money
      && !o.result.value.isEliminated
      && o.store.Keys == pending.Keys + {number}
      && Decode(o.store[number]) == Some(o.result.value)
      && (forall k :: k in pending && k != number ==> o.store[k] == pending[k])
  {
    if AssetExists(committed, number) then
      Outcome(Failure(ChaincodeError(AssetAlreadyExists, number)), pending)
    else
      var player := NewPlayer(Str(number), name, money);
      Outcome(Success(player), PutStringState(pending, number, Encode(player)))
  }

  /**
   * Once a successful create is committed the key is an asset, so a create of
   * it in any later transaction fails and writes nothing.
   */
  lemma CreateTwiceFails(store: Store, number: string, name: JString, money: Int32,
                         pending: Store, name': JString, money': Int32)
    requires CreatePlayer(store, store, number, name, money).result.Success?
    ensures AssetExists(CreatePlayer(store, store, number, name, money).store, number)
    ensures
      var after := CreatePlayer(store, store, number, name, money).store;
      CreatePlayer(after, pending, number, name', money') == Outcome(Failure(ChaincodeError(AssetAlreadyExists, number)), pending)
  {
  }

  /**
   * Within one transaction the existence test does not see the transaction's
   * own write: two creates of an absent key both succeed, the second
   * overwriting the first.
   */
  lemma CreateTwiceInOneTransaction(store: Store, number: string, name: JString, money: Int32,
                                    name': JString, money': Int32)
    requires !AssetExists(store, number)
    ensures
      var first := CreatePlayer(store, store, number, name, money);
      var second := CreatePlayer(store, first.store, number, name', money');
      && first.result.Success? && second.result.Success?
      && second.store[number] == Encoded(Player(Str(number), name', money', false))
  {
  }

  /** A create, failed or not, leaves the existence of every other key in the pending state as it was. */
  lemma CreateLeavesOtherAssets(committed: Store, pending: Store, number: string, name: JString, money: Int32, key: string)
    requires key != number
    ensures AssetExists(CreatePlayer(committed, pending, number, name, money).store, key) == AssetExists(pending, key)
  {
  }

  /**
   * The ledger invariant the contract maintains: every stored value is a
   * player, keyed by its own id and not eliminated.
   */
  predicate Consistent(store: Store)
  {
    forall k :: k in store ==>
      store[k].Encoded? && store[k].player.playerID == Str(k) && !store[k].player.isEliminated
  }

  lemma CreatePreservesConsistent(committed: Store, pending: Store, number: string, name: JString, money: Int32)
    requires Consistent(pending)
    ensures Consistent(CreatePlayer(committed, pending, number, name, money).store)
  {
  }

  /** The abort of a failed transaction: the exception is returned and no write is committed. */
  function Abort<T>(error: ChaincodeError, store: Store): (o: Outcome<T>)
    ensures o.result.Failure? && o.store == store
  {
    Outcome(Failure(error), store)
  }

  /**
   * `InitLedger`: creates the three seed players one after another in one
   * transaction; each existence test reads the committed state. The first
   * create that throws ends the transaction, and the whole write set is
   * discarded with it.
   */
  function InitLedger(store: Store): (o: Outcome<()>)
    ensures o.result.Success? <==>
      !AssetExists(store, "player1") && !AssetExists(store, "player2") && !AssetExists(store, "player3")
    ensures o.result.Failure? ==>
      && o.store == store
      && o.result.error.code == AssetAlreadyExists
      && o.result.error.asset == (if AssetExists(store, "player1") then "player1"
                                  else if AssetExists(store, "player2") then "player2"
                                  else "player3")
    ensures o.result.Success? ==>
      o.store == store["player1" := Encoded(Player(Str("player1"), Str("Joao"), 5, false))]
                      ["player2" := Encoded(Player(Str("player2"), Str("Nicco"), 10, false))]
                      ["player3" := Encoded(Player(Str("player3"), Str("Marius"), 10000000, false))]
  {
    var first := CreatePlayer(store, store, "player1", Str("Joao"), 5);
    if first.result.Failure? then Abort(first.result.error, store) else
    var second := CreatePlayer(store, first.store, "player2", Str("Nicco"), 10);
    if second.result.Failure? then Abort(second.result.error, store) else
    var third := CreatePlayer(store, second.store, "player3", Str("Marius"), 10000000);
    if third.result.Failure? then Abort(third.result.error, store) else
    Outcome(Success(()), third.store)
  }

  lemma InitLedgerPreservesConsistent(store: Store)
    requires Consistent(store)
    ensures Consistent(InitLedger(store).store)
  {
    var first := CreatePlayer(store, store, "player1", Str("Joao"), 5);
    CreatePreservesConsistent(store, store, "player1", Str("Joao"), 5);
    var second := CreatePlayer(store, first.store, "player2", Str("Nicco"), 10);
    CreatePreservesConsistent(store, first.store, "player2", Str("Nicco"), 10);
    CreatePreservesConsistent(store, second.store, "player3", Str("Marius"), 10000000);
  }

  /**
   * The loop of `GetAllPlayers`, front to back: each scanned value is decoded
   * and printed. A value that does not decode to a player (the empty string)
   * leaves `player` null, `player.toString()` throws, and the query fails.
   */
  function DecodeAll(entries: seq<(string, Value)>): (players: Option<seq<Player>>)
    ensures players.Some? <==> forall i :: 0 <= i < |entries| ==> entries[i].1.Encoded?
    ensures players.Some? ==>
      && |players.value| == |entries|
      && forall i :: 0 <= i < |entries| ==> Some(players.value[i]) == Decode(entries[i].1)
    decreases |entries|
  {
    if |entries| == 0 then Some([])
    else
      match Decode(entries[0].1)
      case None => None
      case Some(player) =>
        match DecodeAll(entries[1..])
        case None => None
        case Some(rest) => Some([player] + rest)
  }

  /**
   * `GetAllPlayers`: scans every key in ascending order and decodes each value
   * as a player. It returns a listing (or fails) and no store: it writes
   * nothing. The listing succeeds exactly when every stored value is a player,
   * and then entry i is the player stored under the i-th key of the ascending
   * scan: each one stored, and every stored one listed.
   */
  function GetAllPlayers(store: Store): (players: Option<seq<Player>>)
    ensures players.Some? <==> forall k :: k in store ==> store[k].Encoded?
    ensures players.Some? ==>
      && |players.value| == |store|
      && (forall i :: 0 <= i < |players.value| ==> exists k :: k in store && store[k] == Encoded(players.value[i]))
      && (forall k :: k in store ==> store[k].player in players.value)
      && (forall i :: 0 <= i < |players.value| ==> store[GetStateByRange(store)[i].0] == Encoded(players.value[i]))
  {
    ScanDecodesStore(store);
    DecodeAll(GetStateByRange(store))
  }

  /** Decoding the full scan of a store: the proof behind `GetAllPlayers`' contract. */
  lemma ScanDecodesStore(store: Store)
    ensures
      var players := DecodeAll(GetStateByRange(store));
      && (players.Some? <==> forall k :: k in store ==> store[k].Encoded?)
      && (players.Some? ==>
        && |players.value| == |store|
        && (forall i :: 0 <= i < |players.value| ==> exists k :: k in store && store[k] == Encoded(players.value[i]))
        && (forall k :: k in store ==> store[k].player in players.value)
        && (forall i :: 0 <= i < |players.value| ==> store[GetStateByRange(store)[i].0] == Encoded(players.value[i])))
  {
    var entries := GetStateByRange(store);
    var players := DecodeAll(entries);
    if players.Some? {
      forall k | k in store
        ensures store[k].player in players.value
      {
        var i :| 0 <= i < |entries| && entries[i].0 == k;
        assert Some(players.value[i]) == Decode(entries[i].1);
      }
      forall i | 0 <= i < |players.value|
        ensures store[entries[i].0] == Encoded(players.value[i])
        ensures exists k :: k in store && store[k] == Encoded(players.value[i])
      {
        assert Some(players.value[i]) == Decode(entries[i].1);
        assert store[entries[i].0] == Encoded(players.value[i]);
      }
    } else {
      var i :| 0 <= i < |entries| && !entries[i].1.Encoded?;
      assert entries[i].0 in store;
    }
  }

  /** On a consistent ledger the listing succeeds, runs in ascending order of player id and holds no eliminated player. */
  lemma AllPlayersOrderedById(store: Store)
    requires Consistent(store)
    ensures GetAllPlayers(store).Some?
    ensures
      var players := GetAllPlayers(store).value;
      && (forall i :: 0 <= i < |players| ==> !players[i].isEliminated)
      && (forall i, j :: 0 <= i < j < |players| ==>
            players[i].playerID.Str? && players[j].playerID.Str? &&
            Before(players[i].playerID.chars, players[j].playerID.chars))
  {
    var entries := GetStateByRange(store);
    var players := GetAllPlayers(store).value;
    forall i | 0 <= i < |players|
      ensures players[i].playerID == Str(entries[i].0) && !players[i].isEliminated
    {
      assert Some(players[i]) == Decode(entries[i].1);
    }
  }

  /** A seeding that succeeded adds the three seed keys as assets and leaves every other key as it was. */
  lemma InitLedgerAddsOnlySeeds(store: Store)
    requires InitLedger(store).result.Success?
    ensures
      var after := InitLedger(store).store;
      && after.Keys == store.Keys + {"player1", "player2", "player3"}
      && AssetExists(after, "player1") && AssetExists(after, "player2") && AssetExists(after, "player3")
      && (forall k :: k in store && k !in {"player1", "player2", "player3"} ==> after[k] == store[k])
  {
  }

  /** Seeding twice always fails the second time, and that failure commits nothing. */
  lemma InitLedgerTwiceFails(store: Store)
    requires InitLedger(store).result.Success?
    ensures
      var after := InitLedger(store).store;
      InitLedger(after) == Outcome(Failure(ChaincodeError(AssetAlreadyExists, "player1")), after)
  {
    InitLedgerAddsOnlySeeds(store);
  }

  lemma SeedKeysAscending()
    ensures Ascending(["player1", "player2", "player3"])
  {
    assert Before("player1", "player2") by {
      assert "player1"[6..] == "1" && "player2"[6..] == "2";
    }
    assert Before("player2", "player3") by {
      assert "player2"[6..] == "2" && "player3"[6..] == "3";
    }
    NotAfterTransitive("player1", "player2", "player3");
  }

  /** Seeding an empty ledger stores exactly the three seed players. */
  lemma SeedEmptyLedger()
    ensures InitLedger(map[]) == Outcome(Success(()), SeedStore())
  {
  }

  function SeedStore(): Store
  {
    map["player1" := Encoded(Player(Str("player1"), Str("Joao"), 5, false)),
        "player2" := Encoded(Player(Str("player2"), Str("Nicco"), 10, false)),
        "player3" := Encoded(Player(Str("player3"), Str("Marius"), 10000000, false))]
  }

  /**
   * The listing is fixed by the keys alone: given the stored keys in ascending
   * order, entry i of `GetAllPlayers` is the decoding of the value under key i.
   */
  lemma AllPlayersFollowKeyOrder(store: Store, keys: seq<string>)
    requires Ascending(keys)
    requires forall k :: k in keys <==> k in store
    ensures GetAllPlayers(store).Some? <==> forall i :: 0 <= i < |keys| ==> store[keys[i]].Encoded?
    ensures GetAllPlayers(store).Some? ==>
      && |GetAllPlayers(store).value| == |keys|
      && forall i :: 0 <= i < |keys| ==> Some(GetAllPlayers(store).value[i]) == Decode(store[keys[i]])
  {
    var entries := GetStateByRange(store);
    var scanned := seq(|entries|, i requires 0 <= i < |entries| => entries[i].0);
    assert Ascending(scanned);
    forall k
      ensures k in scanned <==> k in keys
    {
      if k in store {
        var i :| 0 <= i < |entries| && entries[i].0 == k;
        assert scanned[i] == k;
      }
    }
    AscendingUnique(scanned, keys);
    assert forall i :: 0 <= i < |keys| ==> entries[i].1 == store[keys[i]];
  }

  /** A ledger of three players under ascending keys lists them in key order. */
  lemma ListingOfThree(store: Store, k1: string, k2: string, k3: string, p1: Player, p2: Player, p3: Player)
    requires Ascending([k1, k2, k3])
    requires store.Keys == {k1, k2, k3}
    requires store[k1] == Encoded(p1) && store[k2] == Encoded(p2) && store[k3] == Encoded(p3)
    ensures
      var listing := GetAllPlayers(store);
      listing.Some? && |listing.value| == 3 && listing.value[0] == p1 && listing.value[1] == p2 && listing.value[2] == p3
  {
    var keys := [k1, k2, k3];
    assert forall k :: k in keys <==> k in store;
    assert forall i :: 0 <= i < |keys| ==> store[keys[i]].Encoded?;
    AllPlayersFollowKeyOrder(store, keys);
    var listing := GetAllPlayers(store);
    assert listing.Some? && |listing.value| == 3;
    var players := listing.value;
    assert Some(players[0]) == Decode(store[keys[0]]) == Some(p1);
    assert Some(players[1]) == Decode(store[keys[1]]) == Some(p2);
    assert Some(players[2]) == Decode(store[keys[2]]) == Some(p3);
  }

  /** Seeding an empty ledger and listing it yields Joao, Nicco and Marius, in that key order. */
  lemma SeededLedgerListing()
    ensures
      var listing := GetAllPlayers(InitLedger(map[]).store);
      && listing.Some? && |listing.value| == 3
      && listing.value[0] == Player(Str("player1"), Str("Joao"), 5, false)
      && listing.value[1] == Player(Str("player2"), Str("Nicco"), 10, false)
      && listing.value[2] == Player(Str("player3"), Str("Marius"), 10000000, false)
  {
    SeedEmptyLedger();
    SeedKeysAscending();
    assert Before(["player1", "player2", "player3"][0], ["player1", "player2", "player3"][1]);
    assert Before(["player1", "player2", "player3"][1], ["player1", "player2", "player3"][2]);
    ListingOfThree(SeedStore(), "player1", "player2", "player3",
      Player(Str("player1"), Str("Joao"), 5, false),
      Player(Str("player2"), Str("Nicco"), 10, false),
      Player(Str("player3"), Str("Marius"), 10000000, false));
  }
}
