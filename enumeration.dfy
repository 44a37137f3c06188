/**
 * A named integer kept in the inclusive range [0, max_value] (enumeration.py).
 * The value is stored first and checked afterwards, both by the setter and by
 * construction, and construction checks twice: once against the class-level
 * default bound, once against the bound supplied.
 */
module Enumerations {
  import opened Wrappers

  /** The class-level default of `max_value`, 2**64. */
  const DefaultMaxValue: int := 0x1_0000_0000_0000_0000

  datatype RangeError = OutOfRange(value: int)

  predicate InRange(value: int, maxValue: int) {
    0 <= value <= maxValue
  }

  class Enumeration {
    var name: string
    var value: int
    var maxValue: int

    ghost predicate Valid()
      reads this
    {
      InRange(value, maxValue)
    }

    /**
     * The stores made by the generated initialiser before its setter checks:
     * the instance has no `max_value` yet, so the class default is the bound.
     */
    constructor Raw(name: string, value: int)
      ensures this.name == name && this.value == value && maxValue == DefaultMaxValue
    {
      this.name := name;
      this.value := value;
      maxValue := DefaultMaxValue;
    }

    /** An enumeration whose value has been checked against its bound before it is built. */
    constructor Init(name: string, value: int, maxValue: int)
      requires InRange(value, maxValue)
      ensures Valid()
      ensures this.name == name && this.value == value && this.maxValue == maxValue
    {
      this.name := name;
      this.value := value;
      this.maxValue := maxValue;
    }

    /** `check`: fails exactly when the stored value lies outside [0, max_value]. */
    method Check() returns (o: Outcome<RangeError>)
      ensures o.Pass? <==> Valid()
      ensures o.Fail? ==> o.error == OutOfRange(value)
    {
      if value < 0 || value > maxValue {
        o := Fail(OutOfRange(value));
      } else {
        o := Pass;
      }
    }

    /** The `value` setter: store, then check; a rejected value remains stored. */
    method SetValue(v: int) returns (o: Outcome<RangeError>)
      modifies this
      ensures value == v && name == old(name) && maxValue == old(maxValue)
      ensures o.Pass? <==> InRange(v, maxValue)
      ensures o.Fail? ==> o.error == OutOfRange(v)
    {
      value := v;
      o := Check();
    }

    /** `__post_init__`: install the supplied bound, then assign the value to itself through the setter. */
    method PostInit(maxValue: int) returns (o: Outcome<RangeError>)
      modifies this
      ensures this.maxValue == maxValue && value == old(value) && name == old(name)
      ensures o.Pass? <==> InRange(value, maxValue)
      ensures o.Fail? ==> o.error == OutOfRange(value)
    {
      this.maxValue := maxValue;
      o := SetValue(value);
    }

    /** `x in e`: membership in a single-valued enumeration. */
    function Contains(x: int): (r: bool)
      reads this
      ensures r <==> x == value
    {
      value == x
    }

    /** The generated equality: name and value only. */
    predicate Equals(other: Enumeration)
      reads this, other
      ensures Equals(other) <==> name == other.name && value == other.value
    {
      name == other.name && value == other.value
    }
  }

  /** What construction as written accepts: the value passes the default bound and then the supplied one. */
  predicate ConstructionAccepts(value: int, maxValue: int) {
    InRange(value, DefaultMaxValue) && InRange(value, maxValue)
  }

  /**
   * Construction as written: the generated initialiser stores and checks the
   * value against the default bound, then `__post_init__` installs the
   * supplied bound and checks again.
   */
  method NewEnumeration(name: string, value: int, maxValue: int := DefaultMaxValue)
    returns (r: Result<Enumeration, RangeError>)
    ensures r.Success? <==> ConstructionAccepts(value, maxValue)
    ensures r.Success? <==> 0 <= value <= maxValue && value <= DefaultMaxValue
    ensures r.Failure? ==> r.error == OutOfRange(value)
    ensures r.Success? ==> fresh(r.value) && r.value.Valid()
    ensures r.Success? ==> r.value.name == name && r.value.value == value && r.value.maxValue == maxValue
  {
    var e := new Enumeration.Raw(name, value);
    var o := e.Check();
    if o.Fail? {
      return Failure(o.error);
    }
    o := e.PostInit(maxValue);
    if o.Fail? {
      return Failure(o.error);
    }
    return Success(e);
  }

  /** Construction as evidently intended: checked once, against the supplied bound, before anything is built. */
  method NewEnumerationIntended(name: string, value: int, maxValue: int := DefaultMaxValue)
    returns (r: Result<Enumeration, RangeError>)
    ensures r.Success? <==> InRange(value, maxValue)
    ensures r.Failure? ==> r.error == OutOfRange(value)
    ensures r.Success? ==> fresh(r.value) && r.value.Valid()
    ensures r.Success? ==> r.value.name == name && r.value.value == value && r.value.maxValue == maxValue
  {
    if value < 0 || value > maxValue {
      return Failure(OutOfRange(value));
    }
    var e := new Enumeration.Init(name, value, maxValue);
    return Success(e);
  }

  /** Both ends of the range are accepted, up to the default bound. */
  lemma BoundsInclusive(maxValue: int)
    requires 0 <= maxValue <= DefaultMaxValue
    ensures ConstructionAccepts(0, maxValue) && ConstructionAccepts(maxValue, maxValue)
    ensures !ConstructionAccepts(-1, maxValue) && !ConstructionAccepts(maxValue + 1, maxValue)
  {
  }

  /** A value within a supplied bound above 2**64 is still rejected by the first check. */
  lemma EarlyCheckRejects()
    ensures InRange(DefaultMaxValue + 1, DefaultMaxValue + 1)
    ensures !ConstructionAccepts(DefaultMaxValue + 1, DefaultMaxValue + 1)
  {
  }

  /** Up to the default bound, the two checks agree with a single check against the supplied bound. */
  lemma ConstructionAgreesBelowDefault(value: int, maxValue: int)
    requires maxValue <= DefaultMaxValue
    ensures ConstructionAccepts(value, maxValue) <==> InRange(value, maxValue)
  {
  }

  /** Two enumerations with equal names and values are equal whatever their bounds. */
  lemma EqualityIgnoresBound(a: Enumeration, b: Enumeration)
    requires a.name == b.name && a.value == b.value
    ensures a.Equals(b) && b.Equals(a)
  {
  }
}
