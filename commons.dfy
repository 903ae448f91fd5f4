/**
 * The shared helpers of the entity package: the error response constructors
 * and the sparse-patch filter that drops empty entries from a field map.
 */
module Commons {
  import opened Entity

  /**
   * A dynamically typed map value (Go's `interface{}`), closed over the kinds
   * the profile columns hold; `Other` stands for a value of any other type.
   */
  datatype Value =
    | Nil
    | Str(s: string)
    | Stamp(t: Time)
    | Float(f: Float64)
    | Bool(b: bool)
    | Other(tag: nat)

  /** A `map[string]interface{}` taken as a value. */
  type Fields = map<string, Value>

  /** The entries the sparse-patch filter drops: nil, "" and the zero time. */
  predicate IsEmptyValue(v: Value)
  {
    v.Nil? || (v.Str? && |v.s| == 0) || (v.Stamp? && IsZeroTime(v.t))
  }

  /** The map with its empty entries removed and every other entry kept as it is. */
  function NonEmpty(m: Fields): (r: Fields)
    ensures r.Keys <= m.Keys
    ensures forall k | k in m && !IsEmptyValue(m[k]) :: k in r && r[k] == m[k]
    ensures forall k | k in r :: !IsEmptyValue(r[k])
    ensures forall k :: k in r <==> k in m && !IsEmptyValue(m[k])
    ensures forall k | k in r :: r[k] == m[k]
  {
    map k | k in m && !IsEmptyValue(m[k]) :: m[k]
  }

  /** Removing empty entries a second time changes nothing. */
  lemma NonEmptyIdempotent(m: Fields)
    ensures NonEmpty(NonEmpty(m)) == NonEmpty(m)
  {
  }

  /** A Go map is a reference: this object is the map a caller shares with the filter. */
  class FieldMap {
    var entries: Fields

    constructor (entries: Fields)
      ensures this.entries == entries
    {
      this.entries := entries;
    }
  }

  /**
   * Deletes, in place, every entry whose value is nil, the empty string or the
   * zero time, and hands back the very map it was given.
   */
  method RemoveEmptyValues(m: FieldMap) returns (r: FieldMap)
    modifies m
    ensures r == m
    ensures m.entries == NonEmpty(old(m.entries))
    ensures m.entries.Keys <= old(m.entries).Keys
    ensures forall k | k in m.entries :: !m.entries[k].Nil?
    ensures forall k | k in m.entries :: m.entries[k] != Str("")
    ensures forall k | k in m.entries :: !(m.entries[k].Stamp? && IsZeroTime(m.entries[k].t))
    ensures forall k | k in old(m.entries) && !IsEmptyValue(old(m.entries)[k]) ::
              k in m.entries && m.entries[k] == old(m.entries)[k]
  {
    ghost var original := m.entries;
    var pending := m.entries.Keys;
    while pending != {}
      invariant pending <= original.Keys
      invariant forall k :: k in m.entries <==> k in original && (k in pending || !IsEmptyValue(original[k]))
      invariant forall k | k in m.entries :: m.entries[k] == original[k]
      decreases pending
    {
      var k :| k in pending;
      var v := m.entries[k];
      if v.Nil? {
        m.entries := m.entries - {k};
      }
      if !v.Nil? {
        // an empty string
        if v.Str? && |v.s| == 0 {
          m.entries := m.entries - {k};
        }
        // a zero time
        if v.Stamp? && IsZeroTime(v.t) {
          m.entries := m.entries - {k};
        }
      }
      pending := pending - {k};
    }
    assert m.entries.Keys == NonEmpty(original).Keys;
    r := m;
  }

  /** The common error body `{"error": ...}`. */
  datatype ErrorResponse = ErrorResponse(error: string)

  function NewError(s: string): (r: ErrorResponse)
    ensures r.error == s
  {
    ErrorResponse(s)
  }

  /** The JSON encoding of an error body; the byte-level serialisation is not modelled. */
  datatype ErrorJson = ErrorJson(body: ErrorResponse)

  function NewErrorJSON(s: string): (r: ErrorJson)
    ensures r.body.error == s
  {
    ErrorJson(ErrorResponse(s))
  }
}
