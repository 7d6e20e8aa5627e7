/**
 * The `Faculty` record: a board property with a sale price, a rental fee and
 * an owner reference that is null while the property is unowned. All five
 * fields are final and the getters return them as stored.
 */
module Faculties {
  import opened JavaLang

  datatype Faculty = Faculty(facultyID: JString, name: JString, salePrice: Int32, rentalFee: Int32, owner: JString)

  /** The constructor stores all five fields as given; a null `owner` means the faculty is unowned. */
  function NewFaculty(facultyID: JString, name: JString, salePrice: Int32, rentalFee: Int32, owner: JString): (f: Faculty)
    ensures f.facultyID == facultyID && f.name == name && f.owner == owner
    ensures f.salePrice == salePrice && f.rentalFee == rentalFee
  {
    Faculty(facultyID, name, salePrice, rentalFee, owner)
  }

  /** Reading a faculty back through its getters and constructing anew gives the same faculty. */
  lemma GettersRebuildFaculty(f: Faculty)
    ensures NewFaculty(f.facultyID, f.name, f.salePrice, f.rentalFee, f.owner) == f
  {
  }

  /**
   * `equals(Object)`: false for null and for other classes; otherwise
   * `Objects.deepEquals` over {facultyID, name, owner} and over
   * {salePrice, rentalFee}. As for players, the `this == obj` shortcut agrees
   * with the comparison (`EqualsReflexive`) and is not written out.
   */
  function Equals(self: Faculty, obj: Ref<Faculty>): (r: bool)
    ensures !obj.Instance? ==> !r
  {
    match obj
    case Null => false
    case OtherClass(_) => false
    case Instance(other) =>
      && DeepEquals([Box(self.facultyID), Box(self.name), Box(self.owner)],
                    [Box(other.facultyID), Box(other.name), Box(other.owner)])
      && DeepEquals([JInt(self.salePrice), JInt(self.rentalFee)],
                    [JInt(other.salePrice), JInt(other.rentalFee)])
  }

  /**
   * `hashCode`: `Objects.hash(facultyID, name, salePrice, rentalFee, owner)`,
   * which is 31^5 + 31^4 h(facultyID) + 31^3 h(name) + 31^2 salePrice
   * + 31 rentalFee + h(owner) truncated to an `int`; a null string hashes to 0.
   */
  function HashCode(f: Faculty): (h: Int32)
    ensures h == Wrap32(28629151 + 923521 * ElementHash(Box(f.facultyID)) + 29791 * ElementHash(Box(f.name))
                        + 961 * f.salePrice + 31 * f.rentalFee + ElementHash(Box(f.owner)))
  {
    ObjectsHashOfFive(Box(f.facultyID), Box(f.name), JInt(f.salePrice), JInt(f.rentalFee), Box(f.owner));
    ObjectsHash([Box(f.facultyID), Box(f.name), JInt(f.salePrice), JInt(f.rentalFee), Box(f.owner)])
  }

  /** Two faculties are equal exactly when all five fields match; two null owners match. */
  lemma EqualsIffSameFields(f: Faculty, g: Faculty)
    ensures Equals(f, Instance(g)) <==>
      && f.facultyID == g.facultyID
      && f.name == g.name
      && f.owner == g.owner
      && f.salePrice == g.salePrice
      && f.rentalFee == g.rentalFee
  {
    var strings, otherStrings := [Box(f.facultyID), Box(f.name), Box(f.owner)], [Box(g.facultyID), Box(g.name), Box(g.owner)];
    var ints, otherInts := [JInt(f.salePrice), JInt(f.rentalFee)], [JInt(g.salePrice), JInt(g.rentalFee)];
    DeepEqualsIsEquality(strings, otherStrings);
    DeepEqualsIsEquality(ints, otherInts);
    BoxInjective(f.facultyID, g.facultyID);
    BoxInjective(f.name, g.name);
    BoxInjective(f.owner, g.owner);
    assert strings == otherStrings <==>
      strings[0] == otherStrings[0] && strings[1] == otherStrings[1] && strings[2] == otherStrings[2];
    assert ints == otherInts <==> ints[0] == otherInts[0] && ints[1] == otherInts[1];
  }

  lemma EqualsReflexive(f: Faculty)
    ensures Equals(f, Instance(f))
  {
    EqualsIffSameFields(f, f);
  }

  lemma EqualsSymmetric(f: Faculty, g: Faculty)
    ensures Equals(f, Instance(g)) <==> Equals(g, Instance(f))
  {
    EqualsIffSameFields(f, g);
    EqualsIffSameFields(g, f);
  }

  lemma EqualsTransitive(f: Faculty, g: Faculty, h: Faculty)
    requires Equals(f, Instance(g)) && Equals(g, Instance(h))
    ensures Equals(f, Instance(h))
  {
    EqualsIffSameFields(f, g);
    EqualsIffSameFields(g, h);
    EqualsIffSameFields(f, h);
  }

  /** Equal faculties have equal hash codes: the hash reads exactly the fields `equals` compares. */
  lemma HashConsistentWithEquals(f: Faculty, g: Faculty)
    requires Equals(f, Instance(g))
    ensures HashCode(f) == HashCode(g)
  {
    EqualsIffSameFields(f, g);
  }
}
