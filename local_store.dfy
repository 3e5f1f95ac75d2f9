/** The browser's key-value store (`localStorage`) as seen by the application. */
module LocalStore {
  import opened Base
  import opened Types

  /**
   * What a key holds once its JSON text is parsed. The application writes
   * only these three shapes, and parsing gives back what was written.
   */
  datatype Entry =
    | ProductsEntry(products: seq<Product>)
    | ProjectsEntry(projects: seq<Project>)
    | UserEntry(user: User)

  /** `localStorage`: a map from key to stored value. */
  class BrowserStore {
    var items: map<string, Entry>

    constructor(initial: map<string, Entry>)
      ensures items == initial
    {
      items := initial;
    }

    /** `localStorage.getItem(key)`. */
    method GetItem(key: string) returns (v: Option<Entry>)
      ensures v.Some? <==> key in items
      ensures v.Some? ==> v.value == items[key]
    {
      v := if key in items then Some(items[key]) else None;
    }

    /** `localStorage.setItem(key, value)`. */
    method SetItem(key: string, value: Entry)
      modifies this
      ensures items == old(items)[key := value]
    {
      items := items[key := value];
    }

    /** `localStorage.removeItem(key)`. */
    method RemoveItem(key: string)
      modifies this
      ensures items == old(items) - {key}
    {
      items := items - {key};
    }
  }
}
