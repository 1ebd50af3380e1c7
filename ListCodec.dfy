/**
 * The list codec of the matching service: a designer's list-valued
 * attribute (scene tags, export formats, visual metadata) is stored as JSON
 * text, but may also reach the scorer as a list already. `DeserializeList`
 * turns whatever is there into a list of strings and never fails;
 * `SerializeList` writes the JSON text that is stored.
 *
 * JSON text that is well formed but is not an array of strings (a number,
 * an object, an array holding numbers) is treated like a decode failure
 * here, because a list of strings is the only result type modelled.
 */
module ListCodec {
  import opened Wrappers
  import PyString
  import Json

  /** The dynamically typed value found in a designer record's list field. */
  datatype Raw =
    | Absent                    // Python `None` or a missing key
    | List(items: seq<string>)  // a Python list already
    | Str(text: string)         // text, normally JSON written by `SerializeList`
    | Other                     // a value of any other type

  /** `deserialize_list`: normalise a stored list value to a list of strings. */
  function DeserializeList(data: Raw): seq<string>
  {
    match data
    case Absent => []
    case List(items) => items
    case Str(text) =>
      var t := PyString.Strip(text);
      if t == [] then []
      else (match Json.Loads(t)
        case Some(xs) => xs
        case None => [])
    case Other => []
  }

  /** `serialize_list`: the JSON text stored for a list; `None` is stored as an empty array. */
  function SerializeList(items: Option<seq<string>>): (s: string)
    ensures |s| >= 2 && s[0] == '[' && s[|s| - 1] == ']'
  {
    Json.Dumps(if items.Some? then items.value else [])
  }

  /** Elements come only from a list, or from text that decodes, once stripped, to exactly those elements. */
  lemma ElementsHaveASource(data: Raw)
    ensures var r := DeserializeList(data);
      r != [] ==> data.List? || (data.Str? && Json.Loads(PyString.Strip(data.text)) == Some(r))
  {
  }

  /** Nothing that is neither a list nor text ever yields an element. */
  lemma NoValueNoElements(data: Raw)
    requires data.Absent? || data.Other?
    ensures DeserializeList(data) == []
  {
  }

  /** A list is passed through unchanged. */
  lemma ListIsIdentity(items: seq<string>)
    ensures DeserializeList(List(items)) == items
  {
  }

  /** Blank text (empty, or whitespace only) yields the empty list. */
  lemma BlankTextIsEmpty(text: string)
    requires PyString.AllSpace(text)
    ensures DeserializeList(Str(text)) == []
  {
    PyString.StripEmptyIffBlank(text);
  }

  /** Text that does not decode yields the empty list instead of an error. */
  lemma UndecodableTextIsEmpty(text: string)
    requires Json.Loads(PyString.Strip(text)).None?
    ensures DeserializeList(Str(text)) == []
  {
  }

  /** Normalising is idempotent: a normalised value, stored back as a list, normalises to itself. */
  lemma DeserializeIdempotent(data: Raw)
    ensures DeserializeList(List(DeserializeList(data))) == DeserializeList(data)
  {
  }

  /** `serialize_list(None)` stores the empty array `[]`. */
  lemma SerializeNone()
    ensures SerializeList(None) == "[]"
  {
  }

  /** What `SerializeList` stores reads back as the list it was given. */
  lemma {:induction false} DeserializeSerialize(items: seq<string>)
    ensures DeserializeList(Str(SerializeList(Some(items)))) == items
  {
    var s := SerializeList(Some(items));
    PyString.StripUntrimmed(s);
    Json.LoadsDumps(items);
  }

  /** The stored text may carry whitespace on either side: it is stripped before decoding. */
  lemma {:induction false} DeserializePaddedSerialize(before: string, items: seq<string>, after: string)
    requires PyString.AllSpace(before) && PyString.AllSpace(after)
    ensures DeserializeList(Str(before + SerializeList(Some(items)) + after)) == items
  {
    var s := SerializeList(Some(items));
    PyString.StripPadded(before, s, after);
    Json.LoadsDumps(items);
  }
}
