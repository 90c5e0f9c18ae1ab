/**
 * The row decoder of lib/typeCast.js, the `typeCast` hook the mysql driver calls for
 * every column of every row: a switch over the column's wire type tag that decides
 * how the field's text becomes a JavaScript value.
 *
 * `field.string()` reads the field as text, `null` for SQL NULL, and is `text` here;
 * `Number(...)` and `new Date(...)` are left uninterpreted as `NumberOf` and `DateOf`.
 * Besides the value, the decoder's effects are listed in order: reading the field as
 * text, reading it as a buffer, logging, and calling `next()`.
 */
module TypeCast {
  import opened Js

  /** A column of a row as the driver presents it. */
  datatype Field = Field(tag: string, text: Option<string>)

  /** What the decoder returns. */
  datatype Decoded =
    | NullValue
    | UndefinedValue
    | Boolean(b: bool)
    | NumberOf(arg: Option<string>)   // `Number(text)`, where `Number(null)` is 0
    | DateOf(dateText: string)        // `new Date(text)`
    | Text(s: string)

  datatype Effect = ReadString | ReadBuffer | LogError | CallNext

  datatype Decoding = Decoding(value: Decoded, effects: seq<Effect>)

  const NumericTags: set<string> := {"SHORT", "LONG", "FLOAT", "INT24", "YEAR"}
  const DateTags: set<string> := {"DATE", "TIMESTAMP", "DATETIME", "NEWDATE"}
  const BlobTags: set<string> := {"TINY_BLOB", "MEDIUM_BLOB", "LONG_BLOB", "BLOB"}
  const StringTags: set<string> := {
    "DECIMAL", "DOUBLE", "LONGLONG", "VARCHAR", "BIT", "NEWDECIMAL",
    "ENUM", "SET", "VAR_STRING", "STRING", "GEOMETRY", "TIME"
  }

  /** Every tag the switch names. */
  const KnownTags: set<string> := {"TINY", "NULL"} + NumericTags + DateTags + BlobTags + StringTags

  /** The text of a field as a value: `null` stays `null`. */
  function FromText(text: Option<string>): (d: Decoded)
    ensures d == NullValue <==> text.None?
  {
    if text.Some? then Text(text.value) else NullValue
  }

  /** The text a passed-through value came from: the inverse of `FromText`. */
  function ToText(d: Decoded): (text: Option<string>)
    requires d.NullValue? || d.Text?
  {
    if d.Text? then Some(d.s) else None
  }

  /** The exported `function(field, next)`. */
  function Decode(field: Field): (r: Decoding)
    ensures |r.effects| >= 1 && r.effects[0] == (if field.tag == "NULL" then ReadBuffer else ReadString)
  {
    var text := field.text;
    if field.tag == "TINY" then
      Decoding(if text.None? then NullValue else Boolean(text.value == "1"), [ReadString])
    else if field.tag in NumericTags then
      Decoding(NumberOf(text), [ReadString])
    else if field.tag in DateTags then
      Decoding(if text.None? then NullValue else DateOf(text.value), [ReadString])
    else if field.tag in BlobTags || field.tag in StringTags then
      Decoding(FromText(text), [ReadString])
    else if field.tag == "NULL" then
      Decoding(NullValue, [ReadBuffer])
    else
      // logged with the field's text, then `next()`; the function returns nothing
      Decoding(UndefinedValue, [ReadString, LogError, CallNext])
  }

  /** `next()` is called exactly for the tags the switch does not name, and then undefined is returned. */
  lemma NextOnlyForUnknownTags(field: Field)
    ensures CallNext in Decode(field).effects <==> field.tag !in KnownTags
    ensures field.tag !in KnownTags ==> Decode(field).value == UndefinedValue
    ensures field.tag in KnownTags ==> |Decode(field).effects| == 1
  {
  }

  /** TINY is a boolean: NULL stays null, '1' is true and any other text false. */
  lemma TinyIsBoolean(text: Option<string>)
    ensures Decode(Field("TINY", text)).value == NullValue <==> text.None?
    ensures Decode(Field("TINY", text)).value == Boolean(true) <==> text == Some("1")
    ensures text.Some? && text.value != "1" ==> Decode(Field("TINY", text)).value == Boolean(false)
  {
  }

  /** The numeric tags pass the text to `Number` without a null check, so NULL never decodes to null. */
  lemma NumericHasNoNullGuard(tag: string, text: Option<string>)
    requires tag in NumericTags
    ensures Decode(Field(tag, text)).value == NumberOf(text)
    ensures Decode(Field(tag, text)).value != NullValue
  {
  }

  /** The date tags: NULL stays null, any text becomes a date built from it. */
  lemma DatesGuardNull(tag: string, text: Option<string>)
    requires tag in DateTags
    ensures Decode(Field(tag, text)).value == NullValue <==> text.None?
    ensures text.Some? ==> Decode(Field(tag, text)).value == DateOf(text.value)
  {
  }

  /** Blob and string tags hand the field's text back unchanged, NULL included. */
  lemma PassthroughRoundTrip(tag: string, text: Option<string>)
    requires tag in BlobTags || tag in StringTags
    ensures var d := Decode(Field(tag, text)).value;
      (d.NullValue? || d.Text?) && ToText(d) == text
  {
  }

  /** The NULL tag consumes the field as a buffer, never reads it as text, and gives null. */
  lemma NullTagConsumesBuffer(text: Option<string>)
    ensures Decode(Field("NULL", text)) == Decoding(NullValue, [ReadBuffer])
  {
  }
}
