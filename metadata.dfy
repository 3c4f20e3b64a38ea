/** A document's metadata: field names mapped to ordered, possibly multi-valued string lists.
    The handlers receive it by reference and change it in place. */
module Metadata {
  import opened Wrappers

  /** The contents of the metadata at one moment. */
  type Fields = map<string, seq<string>>

  /** The field in which an upstream step records the content encoding the document declares. */
  const DOC_CONTENT_ENCODING: string := "document.contentEncoding"

  class ImporterMetadata {
    var fields: Fields

    constructor (initial: Fields)
      ensures fields == initial
    {
      fields := initial;
    }

    /** All values of `key`; an absent key reads as no values. */
    function GetStrings(key: string): seq<string>
      reads this
    {
      if key in fields then fields[key] else []
    }

    /** The first value of `key`, or null. */
    function GetString(key: string): Option<string>
      reads this
    {
      if key in fields && |fields[key]| > 0 then Some(fields[key][0]) else None
    }

    /** Makes `value` the one and only value of `key`. */
    method SetString(key: string, value: string)
      modifies this
      ensures fields == old(fields)[key := [value]]
    {
      fields := fields[key := [value]];
    }

    /** Removes `key` with all its values. */
    method Remove(key: string)
      modifies this
      ensures fields == old(fields) - {key}
    {
      fields := fields - {key};
    }

    /** Removes every field. */
    method Clear()
      modifies this
      ensures fields == map[]
    {
      fields := map[];
    }
  }
}
