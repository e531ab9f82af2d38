/**
 * AbstractComponent (legacy model): equality and hash code of a component
 * over its (name, type, value) triple; the role takes no part in either.
 */
module LegacyComponent {
  import opened Wrappers
  import opened Exceptions
  import opened Values

  datatype Role = Identifier | Measure | Attribute

  /** A component; `name()`, `type()` (a class name) and `get()` may each be null. */
  datatype Component = Component(name: Option<string>, role: Role, typ: Option<string>, value: Option<Value>)

  /** The argument of `equals(Object)`: null, a Component, or any other object. */
  datatype Obj = NullRef | AComponent(c: Component) | OtherObject

  /** `Objects.equals` on nullable fields whose own `equals` is structural. */
  predicate ObjectsEquals<T(==)>(a: Option<T>, b: Option<T>) {
    a == b
  }

  /** `equals(Object)`. The class check is commented out in the source, so an
      argument that is not a Component fails the cast instead of giving false. */
  function Equals(self: Component, o: Obj): (r: Result<bool, Exception>)
    ensures o.NullRef? ==> r == Success(false)
    ensures o.OtherObject? ==> r == Failure(ClassCast)
    ensures o.AComponent? ==>
              r.Success? && (r.value <==> o.c.name == self.name && o.c.typ == self.typ && o.c.value == self.value)
  {
    match o
    case NullRef => Success(false)
    case OtherObject => Failure(ClassCast)
    case AComponent(that) =>
      Success(ObjectsEquals(that.name, self.name) && ObjectsEquals(that.typ, self.typ) &&
              ObjectsEquals(that.value, self.value))
  }

  /** Java `int` arithmetic: reduce to the two's-complement 32-bit range. */
  function Int32(x: int): (r: int)
    ensures -0x8000_0000 <= r < 0x8000_0000
    ensures (x - r) % 0x1_0000_0000 == 0
  {
    (x + 0x8000_0000) % 0x1_0000_0000 - 0x8000_0000
  }

  /** `String.hashCode`: h = 31 * h + c over the characters, in `int` arithmetic. */
  function StringHash(s: string): (h: int)
    ensures -0x8000_0000 <= h < 0x8000_0000
  {
    if s == [] then 0 else Int32(31 * StringHash(s[..|s| - 1]) + s[|s| - 1] as int)
  }

  /** `Arrays.hashCode`, which `Objects.hash` uses: start at 1, then 31 * h + e per element. */
  function ArraysHash(elements: seq<int>): (h: int)
    ensures -0x8000_0000 <= h < 0x8000_0000
  {
    if elements == [] then 1
    else Int32(31 * ArraysHash(elements[..|elements| - 1]) + elements[|elements| - 1])
  }

  /** The hash of a nullable element: 0 for null. */
  function NullableHash<T>(x: Option<T>, hash: T -> int): int {
    match x
    case None => 0
    case Some(v) => Int32(hash(v))
  }

  /** `hashCode()`: `Objects.hash(name(), type(), get())`. The hash codes of the
      type object and of the value are not part of this model and are given
      as parameters. */
  function HashCode(c: Component, typeHash: string -> int, valueHash: Value -> int): (h: int)
    ensures -0x8000_0000 <= h < 0x8000_0000
  {
    ArraysHash([NullableHash(c.name, StringHash), NullableHash(c.typ, typeHash), NullableHash(c.value, valueHash)])
  }

  /** Every component equals itself. */
  lemma EqualsReflexive(c: Component)
    ensures Equals(c, AComponent(c)) == Success(true)
  {
  }

  /** Equality is symmetric. */
  lemma EqualsSymmetric(a: Component, b: Component)
    ensures Equals(a, AComponent(b)) == Equals(b, AComponent(a))
  {
  }

  /** Equality is transitive. */
  lemma EqualsTransitive(a: Component, b: Component, c: Component)
    requires Equals(a, AComponent(b)) == Success(true) && Equals(b, AComponent(c)) == Success(true)
    ensures Equals(a, AComponent(c)) == Success(true)
  {
  }

  /** Components that differ only in their role are equal. */
  lemma RoleIgnored(c: Component, role: Role)
    ensures Equals(c, AComponent(c.(role := role))) == Success(true)
  {
  }

  /** Equal components have equal hash codes. */
  lemma HashConsistent(a: Component, b: Component, typeHash: string -> int, valueHash: Value -> int)
    requires Equals(a, AComponent(b)) == Success(true)
    ensures HashCode(a, typeHash, valueHash) == HashCode(b, typeHash, valueHash)
  {
  }

  /** Reducing an intermediate result to `int` does not change the final
      `int` result of the next `31 * h + e` step. */
  lemma Int32Step(x: int, y: int)
    ensures Int32(31 * Int32(x) + y) == Int32(31 * x + y)
  {
    var q := (x + 0x8000_0000) / 0x1_0000_0000;
    assert Int32(x) == x - q * 0x1_0000_0000;
    var a := 31 * x + y;
    assert 31 * Int32(x) + y == a - (31 * q) * 0x1_0000_0000;
    Int32Shift(a, 31 * q);
  }

  /** Adding a multiple of 2^32 does not change the `int` value. */
  lemma Int32Shift(a: int, k: int)
    ensures Int32(a - k * 0x1_0000_0000) == Int32(a)
  {
    var M := 0x1_0000_0000;
    var b := a + 0x8000_0000;
    assert (b - k * M) % M == b % M by {
      assert b - k * M == (b / M - k) * M + b % M;
    }
  }

  /** `Arrays.hashCode` before reduction to `int`. */
  function ArraysPolynomial(elements: seq<int>): int {
    if elements == [] then 1
    else 31 * ArraysPolynomial(elements[..|elements| - 1]) + elements[|elements| - 1]
  }

  /** Reducing to `int` after every step gives the reduction of the exact value. */
  lemma {:induction false} ArraysHashClosedForm(elements: seq<int>)
    ensures ArraysHash(elements) == Int32(ArraysPolynomial(elements))
    decreases |elements|
  {
    if elements != [] {
      var init := elements[..|elements| - 1];
      ArraysHashClosedForm(init);
      Int32Step(ArraysPolynomial(init), elements[|elements| - 1]);
    }
  }

  /** `Objects.hash` of three elements is the polynomial
      31^3 + 31^2 a + 31 b + d of their hashes, reduced to `int`. */
  lemma HashCodeClosedForm(c: Component, typeHash: string -> int, valueHash: Value -> int)
    ensures var a, b, d := NullableHash(c.name, StringHash), NullableHash(c.typ, typeHash), NullableHash(c.value, valueHash);
            HashCode(c, typeHash, valueHash) == Int32(29791 + 961 * a + 31 * b + d)
  {
    var a, b, d := NullableHash(c.name, StringHash), NullableHash(c.typ, typeHash), NullableHash(c.value, valueHash);
    var e := [a, b, d];
    assert e[..2] == [a, b] && e[..2][..1] == [a] && e[..2][..1][..0] == [];
    ArraysHashClosedForm(e);
    assert ArraysPolynomial([a]) == 31 + a;
    assert ArraysPolynomial([a, b]) == 961 + 31 * a + b;
    assert ArraysPolynomial(e) == 29791 + 961 * a + 31 * b + d;
  }

  function Pow31(n: nat): nat {
    if n == 0 then 1 else 31 * Pow31(n - 1)
  }

  /** The documented form of `String.hashCode`:
      s[0]*31^(n-1) + s[1]*31^(n-2) + ... + s[n-1], before reduction to `int`. */
  function HashPolynomial(s: string): int {
    if s == [] then 0 else s[0] as int * Pow31(|s| - 1) + HashPolynomial(s[1..])
  }

  /** Appending a character multiplies the polynomial by 31 and adds the character. */
  lemma {:induction false} HashPolynomialSnoc(s: string, c: char)
    ensures HashPolynomial(s + [c]) == 31 * HashPolynomial(s) + c as int
    decreases |s|
  {
    if s == [] {
      assert [c][1..] == [];
    } else {
      assert (s + [c])[1..] == s[1..] + [c];
      HashPolynomialSnoc(s[1..], c);
      assert HashPolynomial(s + [c]) == s[0] as int * Pow31(|s|) + 31 * HashPolynomial(s[1..]) + c as int;
    }
  }

  /** `String.hashCode` computed step by step equals the polynomial of its
      specification, reduced to `int`. */
  lemma {:induction false} StringHashClosedForm(s: string)
    ensures StringHash(s) == Int32(HashPolynomial(s))
    decreases |s|
  {
    if s != [] {
      var init, c := s[..|s| - 1], s[|s| - 1];
      assert s == init + [c];
      StringHashClosedForm(init);
      Int32Step(HashPolynomial(init), c as int);
      HashPolynomialSnoc(init, c);
    }
  }
}
