/** The installed-apps page (`src/pages/MyInstallation.jsx`): loads the stored
    list, sorts its copy by downloads, and uninstalls by filtering the id out and
    writing the list back. The effects that decide when to reload or re-sort, and
    the toast, are left out. */
module MyInstallation {
  import opened Seqs
  import opened Apps
  import opened Storage
  import opened DownloadSort
  import AppDetails

  /** The installed list without the entries that have id `id`. */
  function WithoutApp(list: seq<App>, id: int): (r: seq<App>)
    ensures |r| <= |list|
  {
    Filter(list, OtherThan(id))
  }

  /** Uninstalling drops every entry with the id and keeps every other entry, in
      the original relative order. */
  lemma UninstallDropsExactlyId(list: seq<App>, id: int)
    ensures forall a :: a in WithoutApp(list, id) <==> a in list && a.id != id
    ensures !HasId(WithoutApp(list, id), id)
    ensures IsSubsequence(WithoutApp(list, id), list)
    ensures forall a :: multiset(WithoutApp(list, id))[a] == if a.id != id then multiset(list)[a] else 0
  {
    FilterMembers(list, OtherThan(id));
    FilterCounts(list, OtherThan(id));
    FilterSubsequence(list, OtherThan(id));
  }

  /** Uninstalling an id that is not in the list leaves the list unchanged. */
  lemma UninstallAbsentUnchanged(list: seq<App>, id: int)
    requires !HasId(list, id)
    ensures WithoutApp(list, id) == list
  {
    FilterKeepsAll(list, OtherThan(id));
  }

  /** Uninstalling never creates two entries with the same id. */
  lemma {:induction false} UninstallKeepsIdsUnique(list: seq<App>, id: int)
    requires UniqueIds(list)
    ensures UniqueIds(WithoutApp(list, id))
  {
    if list != [] {
      var rest := WithoutApp(list[1..], id);
      UninstallKeepsIdsUnique(list[1..], id);
      if list[0].id != id {
        FilterMembers(list[1..], OtherThan(id));
        var r := [list[0]] + rest;
        assert WithoutApp(list, id) == r;
        forall i, j | 0 <= i < j < |r|
          ensures r[i].id != r[j].id
        {
          if i == 0 {
            assert r[j] in list[1..];
          }
        }
      }
    }
  }

  /** Uninstalling an app that the install just appended gives the list back. */
  lemma UninstallUndoesInstall(list: seq<App>, app: App)
    requires !HasId(list, app.id)
    ensures WithoutApp(AppDetails.AfterInstall(list, app), app.id) == list
  {
    FilterAppend(list, [app], OtherThan(app.id));
    FilterKeepsAll(list, OtherThan(app.id));
  }

  class MyInstallationPage {
    /** The browser storage the page reads and writes. */
    const storage: LocalStorage
    /** The list the page shows; it may be reordered by a sort. */
    var installedApps: seq<App>

    constructor (storage: LocalStorage)
      ensures this.storage == storage && installedApps == []
    {
      this.storage := storage;
      installedApps := [];
    }

    /** `loadApps`: the page shows the stored list, or nothing when the key has
        never been written. */
    method LoadApps()
      modifies this
      ensures installedApps == storage.ReadList(InstalledAppsKey)
      ensures InstalledAppsKey !in storage.entries ==> installedApps == []
    {
      installedApps := storage.ReadList(InstalledAppsKey);
    }

    /** `applySort(order)`: the page shows its list sorted by downloads, descending
        for "desc" and ascending otherwise; the stored list is not touched. */
    method ApplySort(order: string)
      modifies this
      ensures installedApps == SortBy(order, old(installedApps))
      ensures multiset(installedApps) == multiset(old(installedApps))
      ensures forall i, j :: 0 <= i < j < |installedApps| ==>
        if order == "desc" then installedApps[i].downloads >= installedApps[j].downloads
        else installedApps[i].downloads <= installedApps[j].downloads
    {
      var sorted := SortedCopy(installedApps, order);
      SortByPermutes(order, installedApps);
      SortByOrdered(order, installedApps);
      installedApps := sorted;
    }

    /** `handleUninstall(id)`: the page's list without the id is shown and written
        back under the key, so both hold the same list afterwards. */
    method HandleUninstall(id: int)
      modifies this, storage
      ensures installedApps == WithoutApp(old(installedApps), id)
      ensures storage.entries == old(storage.entries)[InstalledAppsKey := installedApps]
      ensures storage.ReadList(InstalledAppsKey) == installedApps
    {
      var updatedList := Filter(installedApps, OtherThan(id));
      installedApps := updatedList;
      storage.SetItem(InstalledAppsKey, updatedList);
    }
  }
}
