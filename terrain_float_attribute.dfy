/** A terrain attribute holding one float, such as the minimum slope. */
module FloatAttributes {
  import opened Tokens

  /** What a float attribute holds: its type and its value. */
  datatype FloatValue = FloatValue(token: Token, value: real)

  /** Comparison of two values of the same type: zero for equal values,
      -1 if the first is smaller, 1 otherwise. */
  function CompareValues(a: real, b: real): (r: int)
    ensures r == 0 <==> a == b
    ensures r < 0 <==> a < b
    ensures r > 0 <==> b < a
  {
    if a == b then 0 else if a < b then -1 else 1
  }

  class TerrainFloatAttribute {
    const token: Token
    /** Public and mutable in the source: callers change it in place. */
    var value: real

    /** An attribute of the given type whose value keeps its default, 0. */
    constructor (token: Token)
      ensures this.token == token && value == 0.0
    {
      this.token := token;
      value := 0.0;
    }

    constructor WithValue(token: Token, value: real)
      ensures this.token == token && this.value == value
    {
      this.token := token;
      this.value := value;
    }

    /** The minimum-slope attribute with the given value. */
    static method CreateMinSlope(value: real) returns (a: TerrainFloatAttribute)
      ensures fresh(a)
      ensures a.token == MinSlope && a.value == value
    {
      a := new TerrainFloatAttribute.WithValue(MinSlope, value);
    }

    /** A new object with the same type and value. */
    method Copy() returns (c: TerrainFloatAttribute)
      ensures fresh(c)
      ensures c.token == token && c.value == value
    {
      c := new TerrainFloatAttribute.WithValue(token, value);
    }

    /** Sets the public `value` field, as callers of the source do. */
    method SetValue(v: real)
      modifies this
      ensures value == v
    {
      value := v;
    }

    function Snapshot(): (v: FloatValue)
      reads this
      ensures v.token == token && v.value == value
    {
      FloatValue(token, value)
    }
  }
}
