/**
 * The loosely typed values of the Composer `extra` setting, as PHP sees them
 * after decoding the JSON into arrays: scalars, and ordered arrays whose keys
 * are integers or strings.
 */
module PhpValues {

  /** A PHP array key (canonical decimal strings are already integers). */
  datatype Key = IntKey(n: int) | StringKey(s: string)

  datatype PhpValue =
    | Null
    | Bool(b: bool)
    | Int(i: int)
    | Float(r: real)
    | String(s: string)
    // An array's entries in order.  Only arrays with distinct keys are meant,
    // as PHP arrays have them; `Get` reads the first entry with a key.
    | Array(entries: seq<(Key, PhpValue)>)

  /** PHP's `empty()`: null, false, 0, 0.0, "", "0" and the empty array. */
  predicate Empty(v: PhpValue)
  {
    match v
      case Null => true
      case Bool(b) => !b
      case Int(i) => i == 0
      case Float(r) => r == 0.0
      case String(s) => s == "" || s == "0"
      case Array(entries) => entries == []
  }

  /** `$array[$key]`: the entry stored under `key`, or null (with a notice)
      when there is none. */
  function Get(entries: seq<(Key, PhpValue)>, key: Key): (r: PhpValue)
    ensures (forall i :: 0 <= i < |entries| ==> entries[i].0 != key) ==> r == Null
    ensures r != Null ==> exists i :: 0 <= i < |entries| && entries[i] == (key, r)
  {
    if entries == [] then Null
    else if entries[0].0 == key then entries[0].1
    else Get(entries[1..], key)
  }

  /** The values of an array in order, as `foreach` visits them. */
  function Values(entries: seq<(Key, PhpValue)>): (r: seq<PhpValue>)
    ensures |r| == |entries|
    ensures forall i :: 0 <= i < |entries| ==> r[i] == entries[i].1
  {
    if entries == [] then [] else [entries[0].1] + Values(entries[1..])
  }
}
