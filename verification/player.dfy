/**
 * The `Player` record of the ledger. Its four fields are final and its
 * getters return them as stored, so the value of this datatype is the whole
 * object; `equals` and `hashCode` are modelled as Java computes them.
 */
module Players {
  import opened JavaLang

  datatype Player = Player(playerID: JString, name: JString, credit: Int32, isEliminated: bool)

  /** The one public constructor: it takes id, name and credit and never builds an eliminated player. */
  function NewPlayer(playerID: JString, name: JString, credit: Int32): (p: Player)
    ensures p.playerID == playerID && p.name == name && p.credit == credit
    ensures !p.isEliminated
  {
    Player(playerID, name, credit, false)
  }

  /** Reading a player back through its getters and constructing anew gives the same player. */
  lemma GettersRebuildPlayer(p: Player)
    requires !p.isEliminated
    ensures NewPlayer(p.playerID, p.name, p.credit) == p
  {
  }

  /**
   * `equals(Object)`: false for null and for other classes; otherwise three
   * `Objects.deepEquals` calls over {playerID, name}, {credit} and
   * {isEliminated}. The `this == obj` shortcut is not written out: a value has
   * no identity, and `EqualsReflexive` shows the comparison below answers true
   * on the same object anyway.
   */
  function Equals(self: Player, obj: Ref<Player>): (r: bool)
    ensures !obj.Instance? ==> !r
  {
    match obj
    case Null => false
    case OtherClass(_) => false
    case Instance(other) =>
      && DeepEquals([Box(self.playerID), Box(self.name)], [Box(other.playerID), Box(other.name)])
      && DeepEquals([JInt(self.credit)], [JInt(other.credit)])
      && DeepEquals([JBool(self.isEliminated)], [JBool(other.isEliminated)])
  }

  /**
   * `hashCode`: `Objects.hash(playerID, name, credit, isEliminated)`, which is
   * 31^4 + 31^3 h(playerID) + 31^2 h(name) + 31 credit + h(isEliminated)
   * truncated to an `int`; a null string hashes to 0, true to 1231, false to 1237.
   */
  function HashCode(p: Player): (h: Int32)
    ensures h == Wrap32(923521 + 29791 * ElementHash(Box(p.playerID)) + 961 * ElementHash(Box(p.name))
                        + 31 * p.credit + (if p.isEliminated then 1231 else 1237))
  {
    ObjectsHashOfFour(Box(p.playerID), Box(p.name), JInt(p.credit), JBool(p.isEliminated));
    ObjectsHash([Box(p.playerID), Box(p.name), JInt(p.credit), JBool(p.isEliminated)])
  }

  /** Two players are equal exactly when all four fields match, a null string matching only null. */
  lemma EqualsIffSameFields(p: Player, q: Player)
    ensures Equals(p, Instance(q)) <==>
      && p.playerID == q.playerID
      && p.name == q.name
      && p.credit == q.credit
      && p.isEliminated == q.isEliminated
  {
    DeepEqualsIsEquality([Box(p.playerID), Box(p.name)], [Box(q.playerID), Box(q.name)]);
    DeepEqualsIsEquality([JInt(p.credit)], [JInt(q.credit)]);
    DeepEqualsIsEquality([JBool(p.isEliminated)], [JBool(q.isEliminated)]);
    BoxInjective(p.playerID, q.playerID);
    BoxInjective(p.name, q.name);
    assert [Box(p.playerID), Box(p.name)] == [Box(q.playerID), Box(q.name)] <==>
      Box(p.playerID) == Box(q.playerID) && Box(p.name) == Box(q.name);
  }

  lemma EqualsReflexive(p: Player)
    ensures Equals(p, Instance(p))
  {
    EqualsIffSameFields(p, p);
  }

  lemma EqualsSymmetric(p: Player, q: Player)
    ensures Equals(p, Instance(q)) <==> Equals(q, Instance(p))
  {
    EqualsIffSameFields(p, q);
    EqualsIffSameFields(q, p);
  }

  lemma EqualsTransitive(p: Player, q: Player, s: Player)
    requires Equals(p, Instance(q)) && Equals(q, Instance(s))
    ensures Equals(p, Instance(s))
  {
    EqualsIffSameFields(p, q);
    EqualsIffSameFields(q, s);
    EqualsIffSameFields(p, s);
  }

  /** Equal players have equal hash codes: the hash reads exactly the fields `equals` compares. */
  lemma HashConsistentWithEquals(p: Player, q: Player)
    requires Equals(p, Instance(q))
    ensures HashCode(p) == HashCode(q)
  {
    EqualsIffSameFields(p, q);
  }
}
