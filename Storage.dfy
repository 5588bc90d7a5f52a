/**
  The browser's `localStorage`, shared by the access gate and the caregiver
  notes: a string-to-string dictionary that survives page loads.
 */
module Storage {

  import opened Wrappers

  class LocalStorage {

    /** The stored entries. */
    var items: map<string, string>

    /** The storage as a page finds it: whatever earlier visits left there. */
    constructor (contents: map<string, string>)
      ensures items == contents
    {
      items := contents;
    }

    /** `getItem(key)`: the stored value, or None (`null`) for a key never set or since removed. */
    function GetItem(key: string): (r: Option<string>)
      reads this
      ensures r.Some? <==> key in items
      ensures r.Some? ==> r.value == items[key]
    {
      if key in items then Some(items[key]) else None
    }

    /** `setItem(key, value)`: stores value under key and touches no other key. */
    method SetItem(key: string, value: string)
      modifies this
      ensures items == old(items)[key := value]
    {
      items := items[key := value];
    }

    /** `removeItem(key)`: forgets key, and does nothing when it is not there. */
    method RemoveItem(key: string)
      modifies this
      ensures items == old(items) - {key}
    {
      items := items - {key};
    }
  }
}
