/** The browser facilities the two components use: the page's localStorage,
    the requests they send, and JavaScript truthiness of a stored string. */
module Browser {
  import opened Wrappers

  /** window.localStorage: string keys to string values. */
  class LocalStorage {
    var items: map<string, string>

    constructor (initial: map<string, string>)
      ensures items == initial
    {
      items := initial;
    }

    /** getItem: the stored value, or null. */
    function GetItem(key: string): (r: Option<string>)
      reads this
      ensures r.Some? <==> key in items
      ensures r.Some? ==> r.value == items[key]
    {
      if key in items then Some(items[key]) else None
    }

    method SetItem(key: string, value: string)
      modifies this
      ensures items == old(items)[key := value]
    {
      items := items[key := value];
    }

    method RemoveItem(key: string)
      modifies this
      ensures items == old(items) - {key}
    {
      items := items - {key};
    }
  }

  /** The key the session token is stored under. */
  const TokenKey: string := "token"

  /** `if (token)` on a getItem result: null and the empty string are falsy. */
  predicate Truthy(v: Option<string>)
  {
    v.Some? && v.value != ""
  }

  datatype Header = Header(name: string, value: string)

  /** A request handed to fetch. */
  datatype Request = Request(url: string, httpMethod: string, headers: seq<Header>)
}
