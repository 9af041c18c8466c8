/** The per-client session as the controller uses it: string values under
    string keys. */
module Session {
  import opened Wrappers

  type Store = map<string, string>

  function GetString(s: Store, key: string): (r: Option<string>)
    ensures r.Some? <==> key in s
  {
    if key in s then Some(s[key]) else None
  }

  function SetString(s: Store, key: string, value: string): (r: Store)
    ensures GetString(r, key) == Some(value)
    ensures forall k :: k != key ==> GetString(r, k) == GetString(s, k)
  {
    s[key := value]
  }

  function Remove(s: Store, key: string): (r: Store)
    ensures GetString(r, key) == None
    ensures forall k :: k != key ==> GetString(r, k) == GetString(s, k)
  {
    s - {key}
  }
}
