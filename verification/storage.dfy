/** The browser's `localStorage` as the two install pages use it: one key,
    "installedApps", holding the whole installed list. Serialising with
    `JSON.stringify` and reading back with `JSON.parse` is taken to be the identity,
    so the store maps each key to a list of apps. */
module Storage {
  import opened Apps

  const InstalledAppsKey: string := "installedApps"

  class LocalStorage {
    var entries: map<string, seq<App>>

    /** A store with nothing written yet. */
    constructor ()
      ensures entries == map[]
    {
      entries := map[];
    }

    /** Reading and parsing the value of a key: an absent key gives `null`, which
        the fallback to `[]` turns into the empty list. */
    function ReadList(key: string): (r: seq<App>)
      reads this
      ensures key !in entries ==> r == []
    {
      if key in entries then entries[key] else []
    }

    /** Serialising a list and writing it under a key: the whole list is written
        as one value, and reading the key back gives it unchanged. */
    method SetItem(key: string, list: seq<App>)
      modifies this
      ensures entries == old(entries)[key := list]
      ensures ReadList(key) == list
      ensures forall other :: other != key ==> ReadList(other) == old(ReadList(other))
    {
      entries := entries[key := list];
    }
  }
}
