/**
 * The `upper` string function: one VTLString argument named "value", a
 * VTLString result; null counts as the empty string. The function object is
 * a lazily created singleton.
 */
module Upper {
  import opened Wrappers

  /** The VTL type of the argument and of the result. */
  datatype VtlType = VTLString
  datatype Argument = Argument(name: string, typ: VtlType)

  /** The single declared argument. */
  const VALUE: Argument := Argument("value", VTLString)

  predicate IsLowerAscii(c: char) {
    'a' <= c <= 'z'
  }

  /** Upper case of one character, restricted to the ASCII letters. */
  function UpperChar(c: char): (u: char)
    ensures IsLowerAscii(c) ==> u as int == c as int - 32
    ensures !IsLowerAscii(c) ==> u == c
  {
    if IsLowerAscii(c) then (c as int - 32) as char else c
  }

  /** `String.toUpperCase`, character by character. */
  function ToUpperCase(s: string): (u: string)
    ensures |u| == |s|
  {
    if s == [] then [] else [UpperChar(s[0])] + ToUpperCase(s[1..])
  }

  /** `safeInvoke`: the argument, or "" when it is null, upper-cased. The
      result is a string in every case, never null. */
  function SafeInvoke(value: Option<string>): (r: string)
    ensures value.None? ==> r == ""
    ensures value.Some? ==> r == ToUpperCase(value.value)
  {
    ToUpperCase(value.GetOr(""))
  }

  /** Each character of the result is the upper case of the argument's
      character at the same position. */
  lemma {:induction false} ToUpperCaseAt(s: string, i: int)
    requires 0 <= i < |s|
    ensures ToUpperCase(s)[i] == UpperChar(s[i])
  {
    if i > 0 {
      ToUpperCaseAt(s[1..], i - 1);
    }
  }

  /** The result holds no lower-case ASCII letter. */
  lemma {:induction false} NoLowerCaseLeft(s: string)
    ensures forall i :: 0 <= i < |ToUpperCase(s)| ==> !IsLowerAscii(ToUpperCase(s)[i])
  {
    forall i | 0 <= i < |ToUpperCase(s)| ensures !IsLowerAscii(ToUpperCase(s)[i]) {
      ToUpperCaseAt(s, i);
    }
  }

  /** Upper-casing an upper-cased string changes nothing. */
  lemma {:induction false} ToUpperCaseIdempotent(s: string)
    ensures ToUpperCase(ToUpperCase(s)) == ToUpperCase(s)
  {
    if s != [] {
      ToUpperCaseIdempotent(s[1..]);
      assert ToUpperCase(s)[1..] == ToUpperCase(s[1..]);
    }
  }

  /** The function object: its name, return type and declared arguments. */
  class VTLUpper {
    const name: string
    const returnType: VtlType
    const arguments: seq<Argument>

    constructor ()
      ensures name == "upper" && returnType == VTLString && arguments == [VALUE]
    {
      name := "upper";
      returnType := VTLString;
      arguments := [VALUE];
    }
  }

  /** Holder of the static `instance` field. */
  class InstanceHolder {
    var instance: VTLUpper?

    constructor ()
      ensures instance == null
    {
      instance := null;
    }

    /** `getInstance`: creates the instance on the first call, then keeps returning it. */
    method GetInstance() returns (r: VTLUpper)
      modifies this
      ensures old(instance) != null ==> r == old(instance)
      ensures old(instance) == null ==> fresh(r) && r.name == "upper" && r.returnType == VTLString && r.arguments == [VALUE]
      ensures instance == r
    {
      if instance == null {
        instance := new VTLUpper();
      }
      r := instance;
    }
  }

  /** Every call of `getInstance` returns the same object. */
  method GetInstanceTwice(holder: InstanceHolder) returns (a: VTLUpper, b: VTLUpper)
    modifies holder
    ensures a == b && holder.instance == a
  {
    a := holder.GetInstance();
    b := holder.GetInstance();
  }
}
