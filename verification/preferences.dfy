/** The key/value preference store the client writes its per-attempt secrets
    to (SharedPreferences behind the client's delegate): a missing key reads
    as absent. */
module Preferences {
  import opened Wrappers

  type Store = map<string, string>

  function Load(s: Store, key: string): Option<string> {
    if key in s then Some(s[key]) else None
  }

  /** Writing one key overwrites only that key. */
  function Put(s: Store, key: string, value: string): (r: Store)
    ensures Load(r, key) == Some(value)
    ensures forall k | k != key :: Load(r, k) == Load(s, k)
  {
    s[key := value]
  }
}
