/**
 * The chaincode stub's view of the world state: a map from keys to the
 * stored string values. A value is either the empty string or the JSON
 * encoding of a player; the encoding itself is abstract here.
 */
module WorldState {
  import opened Wrappers
  import opened Players
  import opened KeyOrder

  datatype Value = Empty | Encoded(player: Player)

  type Store = map<string, Value>

  /** The JSON text written for a player. */
  function Encode(p: Player): (v: Value)
    ensures v != Empty
  {
    Encoded(p)
  }

  /** Reading a player back from a stored value; the empty string reads as null. */
  function Decode(v: Value): (p: Option<Player>)
    ensures p.None? <==> v == Empty
    ensures p.Some? ==> Encode(p.value) == v
  {
    match v
    case Empty => None
    case Encoded(p) => Some(p)
  }

  lemma DecodeEncode(p: Player)
    ensures Decode(Encode(p)) == Some(p)
  {
  }

  /** `getStringState`: null for a key never written. */
  function GetStringState(store: Store, key: string): (v: Option<Value>)
    ensures v.Some? <==> key in store
    ensures v.Some? ==> v.value == store[key]
  {
    if key in store then Some(store[key]) else None
  }

  /** `putStringState`: overwrites or adds one key. */
  function PutStringState(store: Store, key: string, v: Value): (s: Store)
    ensures s.Keys == store.Keys + {key}
    ensures s[key] == v
    ensures forall k :: k in store && k != key ==> s[k] == store[k]
  {
    store[key := v]
  }

  /** `getStateByRange("", "")`: every stored key with its value, in ascending key order. */
  function GetStateByRange(store: Store): (entries: seq<(string, Value)>)
    ensures |entries| == |store|
    ensures forall i :: 0 <= i < |entries| ==> entries[i].0 in store && entries[i].1 == store[entries[i].0]
    ensures forall k :: k in store ==> exists i :: 0 <= i < |entries| && entries[i].0 == k
    ensures forall i, j :: 0 <= i < j < |entries| ==> Before(entries[i].0, entries[j].0)
  {
    var keys := SortedKeys(store.Keys);
    var entries := seq(|keys|, i requires 0 <= i < |keys| => (keys[i], store[keys[i]]));
    forall k | k in store
      ensures exists i :: 0 <= i < |entries| && entries[i].0 == k
    {
      var i :| 0 <= i < |keys| && keys[i] == k;
      assert entries[i].0 == k;
    }
    entries
  }
}
