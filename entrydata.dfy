/** `EntryType` and `EntryData` of yammy_core/src/entrydata.rs: the declared
    type of one column, an optional reference name and an optional default.
    `EntryData` threads `self` by value, so it is a value here. */
module EntryDatas {
  import opened Wrappers
  import V = EntryValues

  datatype EntryType = String | Unsigned64 | Float64 | Boolean

  /** The type tag a value carries. */
  function TypeOf(v: V.EntryValue): EntryType {
    match v
    case String(_) => EntryType.String
    case Unsigned64(_) => EntryType.Unsigned64
    case Boolean(_) => EntryType.Boolean
    case Float64(_) => EntryType.Float64
  }

  /** The error `check` reports for a column of type `t`. */
  function MismatchError(t: EntryType): Error {
    match t
    case String => NotAString
    case Unsigned64 => NotAnUnsigned64
    case Boolean => NotABoolean
    case Float64 => NotAFloat64
  }

  datatype EntryDataFields = EntryDataFields(
    entryType: EntryType,
    reference: Option<string>,
    defaultValue: Option<V.EntryValue>)
  {
    /** A stored default always has the column's type: `default` checks it
        before storing, and the fields are private to the source file. */
    predicate DefaultFits() {
      defaultValue.Some? ==> TypeOf(defaultValue.value) == entryType
    }
  }

  /** Every `EntryData` the source can build. */
  type EntryData = d: EntryDataFields | d.DefaultFits()
    witness EntryDataFields(EntryType.String, None, None)

  /** `EntryData::new`: the given type, no reference, no default. */
  function New(t: EntryType): (d: EntryData)
    ensures d.entryType == t && d.reference == None && d.defaultValue == None
  {
    EntryDataFields(t, None, None)
  }

  /** `EntryData::reference`: changes the reference and nothing else. */
  function Reference(d: EntryData, reference: string): (d': EntryData)
    ensures d'.reference == Some(reference)
    ensures d'.entryType == d.entryType && d'.defaultValue == d.defaultValue
  {
    d.(reference := Some(reference))
  }

  /** `EntryData::check`: passes exactly when the value's variant is the
      column's type. */
  function Check(d: EntryData, value: V.EntryValue): (r: Outcome)
    ensures r.Pass? <==> TypeOf(value) == d.entryType
    ensures r.Fail? ==> r.error == MismatchError(d.entryType)
  {
    match d.entryType
    case String => (match value case String(_) => Pass case _ => Fail(NotAString))
    case Unsigned64 => (match value case Unsigned64(_) => Pass case _ => Fail(NotAnUnsigned64))
    case Boolean => (match value case Boolean(_) => Pass case _ => Fail(NotABoolean))
    case Float64 => (match value case Float64(_) => Pass case _ => Fail(NotAFloat64))
  }

  /** `EntryData::default`: rejects a value of the wrong type with the check's
      error; otherwise stores it and keeps the type and the reference. */
  function Default(d: EntryData, value: V.EntryValue): (r: Result<EntryData>)
    ensures r.Ok? <==> TypeOf(value) == d.entryType
    ensures r.Err? ==> r.error == MismatchError(d.entryType)
    ensures r.Ok? ==> r.value.defaultValue == Some(value)
    ensures r.Ok? ==> r.value.entryType == d.entryType && r.value.reference == d.reference
  {
    match Check(d, value)
    case Fail(e) => Err(e)
    case Pass => Ok(d.(defaultValue := Some(value)))
  }

  /** The value of a column of type `t` that has no default. */
  function ZeroValue(t: EntryType): (v: V.EntryValue)
    ensures TypeOf(v) == t
  {
    match t
    case String => V.String("")
    case Unsigned64 => V.Unsigned64(0)
    case Float64 => V.Float64(V.F64(0))
    case Boolean => V.Boolean(false)
  }

  /** `EntryData::get_default`: the stored default if there is one, the type's
      zero value otherwise; either way a value the column accepts. */
  function GetDefault(d: EntryData): (v: V.EntryValue)
    ensures Check(d, v).Pass?
    ensures d.defaultValue.Some? ==> v == d.defaultValue.value
    ensures d.defaultValue.None? ==> v == ZeroValue(d.entryType)
  {
    match d.defaultValue
    case Some(v) => v
    case None => ZeroValue(d.entryType)
  }

  /** The zero values: "", 0, +0.0 and false. */
  lemma ZeroValues()
    ensures GetDefault(New(EntryType.String)) == V.String("")
    ensures GetDefault(New(EntryType.Unsigned64)).GetU64() == Some(0)
    ensures GetDefault(New(EntryType.Float64)) == V.Float64(V.F64(0))
    ensures GetDefault(New(EntryType.Boolean)).GetBool() == Some(false)
  {
  }

  /** A default set through `default` is what `get_default` then returns. */
  lemma DefaultThenGetDefault(d: EntryData, value: V.EntryValue)
    requires TypeOf(value) == d.entryType
    ensures Default(d, value).Ok? && GetDefault(Default(d, value).value) == value
  {
  }
}
