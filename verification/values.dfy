/** Map values as the tests use them, and the document values they are written as. */
module Values {

  /** Java's `int`: the type of `Integer` map values and of the `CustomOffset` annotation. */
  newtype int32 = x: int | -0x8000_0000 <= x < 0x8000_0000

  /** Java `int` arithmetic: the mathematical result reduced into the 32-bit range. */
  function Wrap32(x: int): (r: int32)
    ensures (r as int - x) % 0x1_0000_0000 == 0
    ensures -0x8000_0000 <= x < 0x8000_0000 ==> r as int == x
  {
    var y := (x + 0x8000_0000) % 0x1_0000_0000;
    assert (y - (x + 0x8000_0000)) % 0x1_0000_0000 == 0 by {
      var q := (x + 0x8000_0000) / 0x1_0000_0000;
      assert x + 0x8000_0000 == q * 0x1_0000_0000 + y;
      assert y - (x + 0x8000_0000) == (-q) * 0x1_0000_0000;
    }
    (y - 0x8000_0000) as int32
  }

  /** A map value: a Java null, a `String`, an `Integer`, or an `AtomicReference` box whose
      payload may itself be null (then the box is "absent"). */
  datatype Value =
    | Null
    | Str(s: string)
    | Int(i: int32)
    | Ref(content: Value)

  /** A document value as written to the output. */
  datatype Json =
    | JNull
    | JString(s: string)
    | JNumber(n: int32)
    | JObject(fields: seq<(string, Json)>)

  /** Absent in the sense of NON_ABSENT: a null, or a box holding no payload. */
  predicate IsAbsent(v: Value)
    ensures v.Null? ==> IsAbsent(v)
    ensures v.Str? || v.Int? ==> !IsAbsent(v)
    ensures v.Ref? ==> (IsAbsent(v) <==> v.content.Null?)
    ensures IsAbsent(v) ==> IsEmpty(v)
  {
    v.Null? || (v.Ref? && v.content.Null?)
  }

  /** Empty in the sense of NON_EMPTY: null, the empty string, or a box whose payload is empty. */
  predicate IsEmpty(v: Value)
    ensures v.Null? ==> IsEmpty(v)
    ensures v.Str? ==> (IsEmpty(v) <==> |v.s| == 0)
    ensures v.Int? ==> !IsEmpty(v)
    ensures v.Ref? ==> (IsEmpty(v) <==> IsEmpty(v.content))
  {
    match v
    case Null => true
    case Str(s) => s == ""
    case Int(_) => false
    case Ref(c) => IsEmpty(c)
  }

  /** How a value is written: a box is written as its payload, never as a wrapper. */
  function Serialized(v: Value): (j: Json)
    ensures !j.JObject?
    ensures v.Null? ==> j == JNull
    ensures v.Str? ==> j == JString(v.s)
    ensures v.Int? ==> j == JNumber(v.i)
    ensures v.Ref? ==> j == Serialized(v.content)
    ensures IsAbsent(v) ==> j == JNull
    ensures IsEmpty(v) <==> (j == JNull || j == JString(""))
  {
    match v
    case Null => JNull
    case Str(s) => JString(s)
    case Int(i) => JNumber(i)
    case Ref(c) => Serialized(c)
  }
}
