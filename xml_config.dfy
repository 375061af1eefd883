/**
 * XmlConfig::lookup (config/XmlConfig.h): a find in the flattened key/value
 * map, with a default for a missing key and for a value the type cast
 * rejects. The cast is a parameter: Some(v) where TypeCast::type_cast
 * returns v, None where it throws.
 */
module XmlConfig {
  import opened Errors

  /**
   * lookup: an absent key yields defaultVal; a present key yields the cast
   * of its stored text, or defaultVal when the cast throws. The map is only
   * read.
   */
  function Lookup<T>(xmlMap: map<string, string>, key: string, defaultVal: T, typeCast: string -> Option<T>): (r: T)
    ensures key !in xmlMap ==> r == defaultVal
    ensures key in xmlMap && typeCast(xmlMap[key]).Some? ==> r == typeCast(xmlMap[key]).value
    ensures key in xmlMap && typeCast(xmlMap[key]).None? ==> r == defaultVal
  {
    if key !in xmlMap then defaultVal
    else
      match typeCast(xmlMap[key])
      case Some(v) => v
      case None => defaultVal
  }

  /** The result is always the default or the cast of the stored text. */
  lemma LookupCases<T>(xmlMap: map<string, string>, key: string, defaultVal: T, typeCast: string -> Option<T>)
    ensures var r := Lookup(xmlMap, key, defaultVal, typeCast);
      r == defaultVal || (key in xmlMap && typeCast(xmlMap[key]) == Some(r))
  {
  }

  /** Round trip: a value stored as text the cast reads back is returned by lookup, whatever the default. */
  lemma LookupRoundTrip<T>(xmlMap: map<string, string>, key: string, v: T, defaultVal: T,
                           show: T -> string, typeCast: string -> Option<T>)
    requires typeCast(show(v)) == Some(v)
    ensures Lookup(xmlMap[key := show(v)], key, defaultVal, typeCast) == v
  {
  }

  /** Storing under one key does not change what lookup finds under another. */
  lemma LookupOtherKey<T>(xmlMap: map<string, string>, key: string, other: string, text: string,
                          defaultVal: T, typeCast: string -> Option<T>)
    requires other != key
    ensures Lookup(xmlMap[other := text], key, defaultVal, typeCast) == Lookup(xmlMap, key, defaultVal, typeCast)
  {
  }
}
