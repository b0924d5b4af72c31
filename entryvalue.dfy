/** `EntryValue` of yammy_core/src/entryvalue.rs: one typed value of a record,
    with one accessor per variant. */
module EntryValues {
  import opened Wrappers
  import Ids

  /** A 64-bit float, kept as its IEEE-754 bit pattern. The core only tests
      the variant tag of a float and never computes with it. */
  datatype F64 = F64(bits: bv64)

  datatype EntryValue =
    | String(s: string)
    | Unsigned64(n: Ids.u64)
    | Boolean(b: bool)
    | Float64(f: F64)
  {
    /** `get_string`: the text, exactly when the value is a String. */
    function GetString(): (r: Option<string>)
      ensures r.Some? <==> String?
      ensures r.Some? ==> this == String(r.value)
    {
      match this
      case String(s) => Some(s)
      case _ => None
    }

    /** `get_u64`: the number, exactly when the value is an Unsigned64. */
    function GetU64(): (r: Option<Ids.u64>)
      ensures r.Some? <==> Unsigned64?
      ensures r.Some? ==> this == Unsigned64(r.value)
    {
      match this
      case Unsigned64(n) => Some(n)
      case _ => None
    }

    /** `get_bool`: the flag, exactly when the value is a Boolean. */
    function GetBool(): (r: Option<bool>)
      ensures r.Some? <==> Boolean?
      ensures r.Some? ==> this == Boolean(r.value)
    {
      match this
      case Boolean(b) => Some(b)
      case _ => None
    }

    /** `get_f64`: the float, exactly when the value is a Float64. */
    function GetF64(): (r: Option<F64>)
      ensures r.Some? <==> Float64?
      ensures r.Some? ==> this == Float64(r.value)
    {
      match this
      case Float64(f) => Some(f)
      case _ => None
    }

    /** How many of the four accessors answer Some. */
    function AnsweringAccessors(): nat {
      (if GetString().Some? then 1 else 0) + (if GetU64().Some? then 1 else 0)
      + (if GetBool().Some? then 1 else 0) + (if GetF64().Some? then 1 else 0)
    }
  }

  /** Every value answers to exactly one accessor. */
  lemma ExactlyOneAccessor(v: EntryValue)
    ensures v.AnsweringAccessors() == 1
  {
  }

  /** Wrapping a payload and reading it back with the matching accessor is the
      identity. */
  lemma AccessorRoundTrips(s: string, n: Ids.u64, b: bool, f: F64)
    ensures String(s).GetString() == Some(s)
    ensures Unsigned64(n).GetU64() == Some(n)
    ensures Boolean(b).GetBool() == Some(b)
    ensures Float64(f).GetF64() == Some(f)
  {
  }
}
