/**
 * The part of the Java platform the ledger records lean on: the 32-bit `int`,
 * nullable `String` references, `Objects.deepEquals` on the small arrays built
 * by the records' `equals`, and `Objects.hash` (that is, `Arrays.hashCode`)
 * together with the `hashCode` of each boxed element.
 */
module JavaLang {

  /** A Java `int`. */
  type Int32 = x: int | -0x8000_0000 <= x < 0x8000_0000

  /** Two's-complement truncation to 32 bits, which is what Java's `int` arithmetic does on overflow. */
  function Wrap32(x: int): (r: Int32)
    ensures (r - x) % 0x1_0000_0000 == 0
    ensures -0x8000_0000 <= x < 0x8000_0000 ==> r == x
  {
    (x + 0x8000_0000) % 0x1_0000_0000 - 0x8000_0000
  }

  /**
   * A `String` reference: null, or a string of Unicode scalar values. A Java
   * string with an unpaired surrogate code unit has no counterpart here, so
   * everything built on `JString` covers well-formed UTF-16 strings only.
   */
  datatype JString = NullString | Str(chars: string)

  /**
   * An array element as the records' `equals` and `hashCode` see it: a `String`
   * (possibly null) from a `String[]`, an `int` from an `int[]`, a `boolean`
   * from a `boolean[]`, or one of these boxed into the `Object[]` of `Objects.hash`.
   */
  datatype JValue = JNull | JStr(s: string) | JInt(i: Int32) | JBool(b: bool)

  /** The argument of `equals(Object obj)` on a class C: null, an instance of C, or an instance of another class. */
  datatype Ref<T> = Null | Instance(obj: T) | OtherClass(className: string)

  /** A `String` field as an array element. */
  function Box(s: JString): JValue
  {
    match s
    case NullString => JNull
    case Str(chars) => JStr(chars)
  }

  lemma BoxInjective(s: JString, t: JString)
    ensures Box(s) == Box(t) <==> s == t
  {
  }

  /**
   * Element comparison inside `Objects.deepEquals`: for a `String[]` two nulls
   * are equal, null equals nothing else, and otherwise `String.equals` decides;
   * for an `int[]` or a `boolean[]` (`Arrays.equals`) the values are compared.
   */
  function ElementEquals(x: JValue, y: JValue): bool
  {
    match x
    case JNull => y.JNull?
    case JStr(s) => y.JStr? && y.s == s
    case JInt(i) => y.JInt? && y.i == i
    case JBool(b) => y.JBool? && y.b == b
  }

  /** `Objects.deepEquals` on two non-null arrays of one element type: equal lengths, then element by element. */
  function DeepEquals(a: seq<JValue>, b: seq<JValue>): bool
    decreases |a|
  {
    if |a| != |b| then false
    else if |a| == 0 then true
    else ElementEquals(a[0], b[0]) && DeepEquals(a[1..], b[1..])
  }

  /** `deepEquals` on arrays of these element types holds exactly when the arrays hold the same values. */
  lemma {:induction false} DeepEqualsIsEquality(a: seq<JValue>, b: seq<JValue>)
    ensures DeepEquals(a, b) <==> a == b
    decreases |a|
  {
    if |a| == |b| && |a| > 0 {
      DeepEqualsIsEquality(a[1..], b[1..]);
      assert a == [a[0]] + a[1..];
      assert b == [b[0]] + b[1..];
      assert ElementEquals(a[0], b[0]) <==> a[0] == b[0];
    }
  }

  /** The UTF-16 code units Java stores for one character. */
  function CodeUnits(c: char): seq<int>
  {
    var v := c as int;
    if v < 0x1_0000 then [v]
    else [0xD800 + (v - 0x1_0000) / 0x400, 0xDC00 + (v - 0x1_0000) % 0x400]
  }

  function Utf16(s: string): seq<int>
    decreases |s|
  {
    if |s| == 0 then [] else Utf16(s[..|s| - 1]) + CodeUnits(s[|s| - 1])
  }

  /** `String.hashCode`: h = 31 * h + unit over the UTF-16 code units, in `int` arithmetic. */
  function UnitsHash(units: seq<int>): Int32
    decreases |units|
  {
    if |units| == 0 then 0
    else Wrap32(31 * UnitsHash(units[..|units| - 1]) + units[|units| - 1])
  }

  function StringHash(s: string): Int32
  {
    UnitsHash(Utf16(s))
  }

  /** `hashCode` of one element as `Arrays.hashCode` sees it: 0 for null, 1231/1237 for true/false. */
  function ElementHash(v: JValue): Int32
  {
    match v
    case JNull => 0
    case JStr(s) => StringHash(s)
    case JInt(i) => i
    case JBool(b) => if b then 1231 else 1237
  }

  /** `Objects.hash(values...)`: start at 1, then result = 31 * result + element hash, in `int` arithmetic. */
  function ObjectsHash(values: seq<JValue>): Int32
    decreases |values|
  {
    if |values| == 0 then 1
    else Wrap32(31 * ObjectsHash(values[..|values| - 1]) + ElementHash(values[|values| - 1]))
  }

  /** Adding a multiple of 2^32 does not change the truncated value. */
  lemma Wrap32Shift(b: int, k: int)
    ensures Wrap32(b + k * 0x1_0000_0000) == Wrap32(b)
  {
    var y := b + 0x8000_0000;
    var q, r := y / 0x1_0000_0000, y % 0x1_0000_0000;
    assert y + k * 0x1_0000_0000 == (q + k) * 0x1_0000_0000 + r;
  }

  /** One step of `Objects.hash` in `int` arithmetic agrees with the unbounded step, truncated. */
  lemma Wrap32Step(x: int, e: int)
    ensures Wrap32(31 * Wrap32(x) + e) == Wrap32(31 * x + e)
  {
    var q := (x + 0x8000_0000) / 0x1_0000_0000;
    assert Wrap32(x) == x - q * 0x1_0000_0000;
    assert 31 * Wrap32(x) + e == (31 * x + e) + (-31 * q) * 0x1_0000_0000;
    Wrap32Shift(31 * x + e, -31 * q);
  }

  /** The hash `Objects.hash` would compute in unbounded arithmetic. */
  function PolyHash(values: seq<JValue>): int
    decreases |values|
  {
    if |values| == 0 then 1
    else 31 * PolyHash(values[..|values| - 1]) + ElementHash(values[|values| - 1])
  }

  /** Truncating after every step, as `int` arithmetic does, equals truncating once at the end. */
  lemma {:induction false} ObjectsHashIsTruncatedPolyHash(values: seq<JValue>)
    ensures ObjectsHash(values) == Wrap32(PolyHash(values))
    decreases |values|
  {
    if |values| != 0 {
      var prefix := values[..|values| - 1];
      ObjectsHashIsTruncatedPolyHash(prefix);
      Wrap32Step(PolyHash(prefix), ElementHash(values[|values| - 1]));
    }
  }

  /** `Objects.hash(a, b, c, d)` is the 32-bit truncation of 31^4 + 31^3 h(a) + 31^2 h(b) + 31 h(c) + h(d). */
  lemma ObjectsHashOfFour(a: JValue, b: JValue, c: JValue, d: JValue)
    ensures ObjectsHash([a, b, c, d]) ==
      Wrap32(923521 + 29791 * ElementHash(a) + 961 * ElementHash(b) + 31 * ElementHash(c) + ElementHash(d))
  {
    ObjectsHashIsTruncatedPolyHash([a, b, c, d]);
    assert [a][..0] == [] && [a, b][..1] == [a] && [a, b, c][..2] == [a, b] && [a, b, c, d][..3] == [a, b, c];
    assert PolyHash([a]) == 31 + ElementHash(a);
    assert PolyHash([a, b]) == 31 * PolyHash([a]) + ElementHash(b);
    assert PolyHash([a, b, c]) == 31 * PolyHash([a, b]) + ElementHash(c);
    assert PolyHash([a, b, c, d]) == 31 * PolyHash([a, b, c]) + ElementHash(d);
  }

  /** `Objects.hash(a, b, c, d, e)` is the 32-bit truncation of 31^5 + 31^4 h(a) + ... + h(e). */
  lemma ObjectsHashOfFive(a: JValue, b: JValue, c: JValue, d: JValue, e: JValue)
    ensures ObjectsHash([a, b, c, d, e]) ==
      Wrap32(28629151 + 923521 * ElementHash(a) + 29791 * ElementHash(b) + 961 * ElementHash(c)
             + 31 * ElementHash(d) + ElementHash(e))
  {
    ObjectsHashIsTruncatedPolyHash([a, b, c, d, e]);
    assert [a][..0] == [] && [a, b][..1] == [a] && [a, b, c][..2] == [a, b] && [a, b, c, d][..3] == [a, b, c]
      && [a, b, c, d, e][..4] == [a, b, c, d];
    assert PolyHash([a]) == 31 + ElementHash(a);
    assert PolyHash([a, b]) == 31 * PolyHash([a]) + ElementHash(b);
    assert PolyHash([a, b, c]) == 31 * PolyHash([a, b]) + ElementHash(c);
    assert PolyHash([a, b, c, d]) == 31 * PolyHash([a, b, c]) + ElementHash(d);
    assert PolyHash([a, b, c, d, e]) == 31 * PolyHash([a, b, c, d]) + ElementHash(e);
  }
}
