# upmpoly asset registry in Dafny

This project models the `upmpoly` Hyperledger Fabric chaincode, the ledger of a
Monopoly-style game played at UPM. It covers the contract's asset registry of
players and its two record types.

- **Records.** `Player` (`playerID`, `name`, `credit`, `isEliminated`) and
  `Faculty` (`facultyID`, `name`, `salePrice`, `rentalFee`, nullable `owner`)
  are immutable Java classes. Each has a constructor, getters, `equals` built
  from `Objects.deepEquals`, and `hashCode` built from `Objects.hash`. In the
  model they are datatypes. Java's nullable `String` is `JString`, over well-formed strings only (see "Left out"). Java's
  `int` is `Int32`. The argument of `equals(Object)` is `Ref<T>`: null, an
  instance of the same class, or an instance of another class.
- **World state.** The chaincode stub is a `map<string, Value>`. A `Value`
  is either the empty string or the stored encoding of a player. An absent
  key reads as null.
- **Contract.** The contract's transactions are `InitLedger`, `AssetExists`
  and `GetAllPlayers`. `CreatePlayer` models the Java method `Player(ctx,
  number, name, money)`. That method carries no `@Transaction` annotation,
  so it runs only inside `InitLedger`'s transaction. Each operation is a pure
  function of the committed store.
  - **Create.** `CreatePlayer` takes two stores. Its existence test reads the
    committed one, because a read in a Fabric transaction does not see that
    transaction's own writes. Its write goes to the pending one, which is the
    state the enclosing transaction will commit.
  - **Outcomes.** An operation that writes returns an `Outcome`: its result
    plus the store it leaves. A failed transaction leaves the store it started
    from, because Fabric discards the write set of a transaction that throws.
  - **Queries.** `AssetExists` and `GetAllPlayers` return no store, so they
    cannot write.
- **Invariant.** `UpmPoly.Consistent` says every stored value is a player
  stored under its own id and not eliminated. Creating players and seeding
  both preserve it. On a consistent ledger, the listing succeeds, is ordered
  by player id, and holds no eliminated player.

Modules: `Wrappers` (Option), `JavaLang` (Java platform pieces), `Players`,
`Faculties`, `KeyOrder` (lexical key order and sorting), `WorldState` (the
stub), `UpmPoly` (the contract).

## Model

| member | source | states |
|---|---|---|
| `Players.NewPlayer` | src/main/java/es/upm/fi/blockchain/upmpoly/Player.java:41-47 | The constructor stores id, name and credit as given. The new player is never eliminated. |
| `Players.GettersRebuildPlayer` | src/main/java/es/upm/fi/blockchain/upmpoly/Player.java:13-47 | The fields are final and the getters return them unchanged. Feeding a non-eliminated player's getters back into the constructor gives the same player. |
| `Players.Equals` | src/main/java/es/upm/fi/blockchain/upmpoly/Player.java:49-57 | `equals` is false for null and for an object of another class. |
| `Players.EqualsIffSameFields` | src/main/java/es/upm/fi/blockchain/upmpoly/Player.java:59-71 | Two players are equal iff playerID, name, credit and isEliminated all match. A null string matches only null. |
| `Players.EqualsReflexive` | src/main/java/es/upm/fi/blockchain/upmpoly/Player.java:51-53 | Every player equals itself, so the `this == obj` shortcut agrees with the field comparison. |
| `Players.EqualsSymmetric` | src/main/java/es/upm/fi/blockchain/upmpoly/Player.java:59-71 | `p.equals(q)` iff `q.equals(p)`. |
| `Players.EqualsTransitive` | src/main/java/es/upm/fi/blockchain/upmpoly/Player.java:59-71 | Player equality is transitive. |
| `Players.HashConsistentWithEquals` | src/main/java/es/upm/fi/blockchain/upmpoly/Player.java:74-77 | Equal players have equal `hashCode`. |
| `Players.HashCode` | src/main/java/es/upm/fi/blockchain/upmpoly/Player.java:74-77 | `hashCode` is `Objects.hash` of playerID, name, credit and isEliminated. That is 31^4 + 31^3·h(playerID) + 31^2·h(name) + 31·credit + h(isEliminated), truncated to 32 bits. A null string hashes to 0, true to 1231 and false to 1237. |
| `Faculties.NewFaculty` | src/main/java/es/upm/fi/blockchain/upmpoly/Faculty.java:47-55 | The constructor stores all five fields as given. The owner may be null, meaning unowned. |
| `Faculties.GettersRebuildFaculty` | src/main/java/es/upm/fi/blockchain/upmpoly/Faculty.java:12-55 | The fields are final and the getters return them unchanged. Feeding the getters back into the constructor gives the same faculty. |
| `Faculties.Equals` | src/main/java/es/upm/fi/blockchain/upmpoly/Faculty.java:57-65 | `equals` is false for null and for an object of another class. |
| `Faculties.EqualsIffSameFields` | src/main/java/es/upm/fi/blockchain/upmpoly/Faculty.java:67-75 | Two faculties are equal iff facultyID, name, owner, salePrice and rentalFee all match. Two null owners match. |
| `Faculties.EqualsReflexive` | src/main/java/es/upm/fi/blockchain/upmpoly/Faculty.java:59-61 | Every faculty equals itself, so the `this == obj` shortcut agrees with the field comparison. |
| `Faculties.EqualsSymmetric` | src/main/java/es/upm/fi/blockchain/upmpoly/Faculty.java:67-75 | `f.equals(g)` iff `g.equals(f)`. |
| `Faculties.EqualsTransitive` | src/main/java/es/upm/fi/blockchain/upmpoly/Faculty.java:67-75 | Faculty equality is transitive. |
| `Faculties.HashConsistentWithEquals` | src/main/java/es/upm/fi/blockchain/upmpoly/Faculty.java:78-81 | Equal faculties have equal `hashCode`. |
| `Faculties.HashCode` | src/main/java/es/upm/fi/blockchain/upmpoly/Faculty.java:78-81 | `hashCode` is `Objects.hash` of facultyID, name, salePrice, rentalFee and owner. That is 31^5 + 31^4·h(facultyID) + 31^3·h(name) + 31^2·salePrice + 31·rentalFee + h(owner), truncated to 32 bits. A null string hashes to 0. |
| `JavaLang.DeepEqualsIsEquality` | src/main/java/es/upm/fi/blockchain/upmpoly/Player.java:61-71 | `Objects.deepEquals` on the arrays `equals` builds holds iff the arrays hold the same values, element by element. |
| `JavaLang.ObjectsHashIsTruncatedPolyHash` | src/main/java/es/upm/fi/blockchain/upmpoly/Player.java:76 | `Objects.hash` computed in wrapping `int` arithmetic equals the exact polynomial hash, truncated once to 32 bits. |
| `WorldState.GetStringState` | src/main/java/es/upm/fi/blockchain/upmpoly/UpmPoly.java:93 | A read returns the stored value, or null when the key was never written. |
| `WorldState.PutStringState` | src/main/java/es/upm/fi/blockchain/upmpoly/UpmPoly.java:78 | A write sets its own key and leaves every other key as it was. |
| `WorldState.Encode` | src/main/java/es/upm/fi/blockchain/upmpoly/UpmPoly.java:77 | Serialising a player never yields the empty value, so a written key holds an asset afterwards. |
| `WorldState.Decode` | src/main/java/es/upm/fi/blockchain/upmpoly/UpmPoly.java:117 | Decoding gives null exactly for the empty value. Any player it yields re-encodes to the value it was read from. |
| `WorldState.DecodeEncode` | src/main/java/es/upm/fi/blockchain/upmpoly/UpmPoly.java:116-118 | A player's stored encoding decodes back to that player. |
| `WorldState.GetStateByRange` | src/main/java/es/upm/fi/blockchain/upmpoly/UpmPoly.java:110-114 | The scan from "" to "" returns every stored key once, with its value, in strictly ascending lexical order. |
| `KeyOrder.SortedKeys` | src/main/java/es/upm/fi/blockchain/upmpoly/UpmPoly.java:110-114 | Lists a set of keys once each, in strictly ascending lexical order. |
| `KeyOrder.AscendingUnique` | src/main/java/es/upm/fi/blockchain/upmpoly/UpmPoly.java:110-114 | Two strictly ascending listings of the same keys are equal, so the scan order is fully determined. |
| `UpmPoly.AssetExists` | src/main/java/es/upm/fi/blockchain/upmpoly/UpmPoly.java:91-96 | True iff the key holds a value that is neither null nor empty. Returns no store, so it writes nothing. |
| `UpmPoly.CreatePlayer` | src/main/java/es/upm/fi/blockchain/upmpoly/UpmPoly.java:66-81 | Fails with ASSET_ALREADY_EXISTS, naming the key and writing nothing, iff the asset exists in the committed state. Otherwise it writes and returns a non-eliminated player with the key as id and the given name and money, unchecked. Only that key changes in the pending state. |
| `UpmPoly.CreateTwiceFails` | src/main/java/es/upm/fi/blockchain/upmpoly/UpmPoly.java:70-78 | Once a successful create is committed the key exists. A create of it in any later transaction then fails and writes nothing. |
| `UpmPoly.CreateTwiceInOneTransaction` | src/main/java/es/upm/fi/blockchain/upmpoly/UpmPoly.java:70-78 | The existence test reads committed state. So inside one transaction, two creates of an absent key both succeed, and the second write replaces the first. |
| `UpmPoly.CreateLeavesOtherAssets` | src/main/java/es/upm/fi/blockchain/upmpoly/UpmPoly.java:70-78 | A create never changes whether another key exists in the pending state. |
| `UpmPoly.CreatePreservesConsistent` | src/main/java/es/upm/fi/blockchain/upmpoly/UpmPoly.java:76-78 | Creating a player keeps every stored player under its own id and non-eliminated. |
| `UpmPoly.InitLedger` | src/main/java/es/upm/fi/blockchain/upmpoly/UpmPoly.java:49-56 | Succeeds iff none of player1, player2, player3 exists. On success it adds (Joao, 5), (Nicco, 10) and (Marius, 10000000), none eliminated. On failure it names the first seed id that exists and commits nothing. |
| `UpmPoly.InitLedgerAddsOnlySeeds` | src/main/java/es/upm/fi/blockchain/upmpoly/UpmPoly.java:52-54 | A successful seeding makes exactly the three seed ids new assets and leaves every other key as it was. |
| `UpmPoly.InitLedgerTwiceFails` | src/main/java/es/upm/fi/blockchain/upmpoly/UpmPoly.java:49-56 | Seeding a seeded ledger fails on player1 and commits nothing. |
| `UpmPoly.InitLedgerPreservesConsistent` | src/main/java/es/upm/fi/blockchain/upmpoly/UpmPoly.java:49-56 | Seeding keeps the ledger invariant. |
| `UpmPoly.SeedEmptyLedger` | src/main/java/es/upm/fi/blockchain/upmpoly/UpmPoly.java:52-54 | Seeding an empty ledger succeeds and stores exactly the three seed players. |
| `UpmPoly.DecodeAll` | src/main/java/es/upm/fi/blockchain/upmpoly/UpmPoly.java:116-120 | The decoding loop succeeds iff every scanned value is a player. It then yields one player per entry, in scan order. |
| `UpmPoly.GetAllPlayers` | src/main/java/es/upm/fi/blockchain/upmpoly/UpmPoly.java:105-125 | Succeeds iff every stored value is a player. It then returns one player per key: entry i is the player stored under the i-th key of the ascending scan, so every entry is a stored player and every stored player is listed. It returns no store, so it writes nothing. |
| `UpmPoly.AllPlayersFollowKeyOrder` | src/main/java/es/upm/fi/blockchain/upmpoly/UpmPoly.java:110-120 | Given the stored keys in ascending order, entry i of the listing is the player stored under key i. |
| `UpmPoly.AllPlayersOrderedById` | src/main/java/es/upm/fi/blockchain/upmpoly/UpmPoly.java:105-125 | On a consistent ledger the listing succeeds, is strictly ascending by player id, and holds no eliminated player. |
| `UpmPoly.ListingOfThree` | src/main/java/es/upm/fi/blockchain/upmpoly/UpmPoly.java:110-120 | Three players under ascending keys are listed in key order. |
| `UpmPoly.SeededLedgerListing` | src/main/java/es/upm/fi/blockchain/upmpoly/UpmPoly.java:49-56 | Seeding an empty ledger and then listing it yields Joao, Nicco and Marius in that order. |

## Left out

- Purchase, rent payment, trade, bankruptcy, faculty creation and deletion are not modelled. UpmPoly.java has no code for them, so there is nothing to model them from.
- The Fabric runtime is not modelled: `Context`, the `@Contract`/`@Transaction` metadata, request routing and endorsement. The `ChaincodeStub` is a map. A failed transaction returns the store it started from, because Fabric discards the write set of a transaction that throws.
- `WorldState.GetStateByRange`: Fabric's scan from "" to "" skips composite keys, which start with U+0000. The model returns every key. The contract never writes a composite key.
- `WorldState.Decode`: Genson's JSON format is not modelled. The encoding of a player is abstract and decodes back to the same player. An empty value decodes to null. Whether Genson returns null or throws on the empty string, `GetAllPlayers` fails either way, because line 119 calls `toString` on the result.
- `UpmPoly.GetAllPlayers`: the listing is returned as a sequence of players, not as the JSON text Genson produces for it. No stored value can be a faculty, since no code in these files writes one.
- Logging with `System.out` and `toString` formatting are left out. They have no effect on the ledger.
- The `this == obj` reference shortcut in both `equals` methods is not written out. A value model has no reference identity. The reflexivity lemmas show that the field comparison returns true in that case anyway.
- `UpmPoly.CreatePlayer` cannot be called by a client, because `Player(ctx, …)` has no `@Transaction` annotation. The model can call it directly, but it is meant only as a step inside a transaction such as `InitLedger`.
- `UpmPoly.CreateTwiceFails` holds only across committed transactions. Inside one transaction the existence test does not see the transaction's own writes, so a repeated create of one key succeeds (`UpmPoly.CreateTwiceInOneTransaction`). `InitLedger` creates three distinct keys, so this does not affect it.
- `JavaLang.JString`: a Java `String` is a sequence of UTF-16 code units and can hold an unpaired surrogate, for instance one decoded from a JSON `\ud800` escape. A Dafny string holds only Unicode scalar values, so such strings cannot be represented. `Players.Equals`, `Faculties.Equals`, both `HashCode` members and `JavaLang.StringHash` are modelled for well-formed UTF-16 strings only.
- Keys are non-null strings. A null key would make the stub throw before any read or write.
