/**
 * The pieces of the browser environment that the core reads and writes:
 * `window.localStorage` (shared by the theme store and the first-visit
 * hook) and the router's current location.
 */
module Browser {

  /** `window.localStorage`: a string-to-string map; `getItem` of an absent key is `null`. */
  class LocalStorage {
    var items: map<string, string>

    constructor (items: map<string, string>)
      ensures this.items == items
    {
      this.items := items;
    }
  }

  /** The router location; `navigate(path)` replaces its pathname. */
  class Location {
    var pathname: string

    constructor (pathname: string)
      ensures this.pathname == pathname
    {
      this.pathname := pathname;
    }
  }

  /** `localStorage.getItem(key)` followed by a JavaScript truthiness test:
      the stored value when present and non-empty. */
  function TruthyItem(items: map<string, string>, key: string): (r: string)
    ensures r != [] <==> key in items && items[key] != []
    ensures r != [] ==> r == items[key]
  {
    if key in items then items[key] else []
  }
}
