/** The app detail page (`src/pages/AppDetails.jsx`): looks the app up in the
    catalog, tells whether it is installed, and installs it by appending it to the
    stored list. The 500 ms loading delay and the toast are left out; the route
    parameter arrives already parsed to an integer. */
module AppDetails {
  import opened Seqs
  import opened Apps
  import opened Storage

  /** The stored list after installing `app`: unchanged when an entry with its id
      is already there, otherwise `app` appended at the end. */
  function AfterInstall(list: seq<App>, app: App): (r: seq<App>)
    ensures |list| <= |r| <= |list| + 1 && r[..|list|] == list
  {
    if HasId(list, app.id) then list else list + [app]
  }

  /** After installing, the list holds an entry with the app's id. */
  lemma InstallRecordsApp(list: seq<App>, app: App)
    ensures HasId(AfterInstall(list, app), app.id)
  {
    if !HasId(list, app.id) {
      assert app in list + [app];
    }
  }

  /** Installing is idempotent: a second install of the same app changes nothing. */
  lemma InstallIdempotent(list: seq<App>, app: App)
    ensures AfterInstall(AfterInstall(list, app), app) == AfterInstall(list, app)
  {
    InstallRecordsApp(list, app);
  }

  /** Installing an absent app appends exactly it and keeps every earlier entry in
      place; installing a present one leaves the list as it was. */
  lemma InstallAppendsOnlyWhenAbsent(list: seq<App>, app: App)
    ensures (forall a :: a in list ==> a.id != app.id) ==> AfterInstall(list, app) == list + [app]
    ensures (exists a :: a in list && a.id == app.id) ==> AfterInstall(list, app) == list
  {
  }

  /** Installing never puts a second entry with the same id in the list. */
  lemma InstallKeepsIdsUnique(list: seq<App>, app: App)
    requires UniqueIds(list)
    ensures UniqueIds(AfterInstall(list, app))
  {
    if !HasId(list, app.id) {
      var r := list + [app];
      forall i, j | 0 <= i < j < |r|
        ensures r[i].id != r[j].id
      {
        if j == |list| {
          assert r[i] in list;
        }
      }
    }
  }

  class AppDetailsPage {
    /** The browser storage the page reads and writes. */
    const storage: LocalStorage
    /** The app shown, or `None` while none has been found (`null`). */
    var app: Option<App>
    var isLoading: bool
    var isInstalled: bool

    constructor (storage: LocalStorage)
      ensures this.storage == storage
      ensures app == None && isLoading && !isInstalled
    {
      this.storage := storage;
      app := None;
      isLoading := true;
      isInstalled := false;
    }

    /** The effect run for the route's `id`: finds the first catalog app with that
        id and, if there is one, shows it and reads whether the stored list holds an
        entry with its id. An unknown id leaves the app and the flag as they were. */
    method Load(catalog: seq<App>, id: int)
      modifies this
      ensures var found := Find(catalog, WithId(id));
        && (found.Some? ==> app == found && found.value in catalog && found.value.id == id)
        && (found.Some? ==> (isInstalled <==> exists a :: a in storage.ReadList(InstalledAppsKey) && a.id == id))
        && (found.None? ==> app == old(app) && isInstalled == old(isInstalled))
      ensures !isLoading
    {
      isLoading := true;
      var found := Find(catalog, WithId(id));
      if found.Some? {
        app := found;
        var installed := storage.ReadList(InstalledAppsKey);
        isInstalled := HasId(installed, found.value.id);
      }
      isLoading := false;
    }

    /** `handleInstall`: with no app shown, or with the app already in the stored
        list, nothing happens; otherwise the list with the app appended is written
        back under the key and the page marks the app installed. */
    method HandleInstall()
      modifies this, storage
      ensures app == old(app) && isLoading == old(isLoading)
      ensures app.None? ==> storage.entries == old(storage.entries) && isInstalled == old(isInstalled)
      ensures app.Some? && HasId(old(storage.ReadList(InstalledAppsKey)), app.value.id) ==>
                storage.entries == old(storage.entries) && isInstalled == old(isInstalled)
      ensures app.Some? && !HasId(old(storage.ReadList(InstalledAppsKey)), app.value.id) ==>
                storage.entries == old(storage.entries)[InstalledAppsKey := old(storage.ReadList(InstalledAppsKey)) + [app.value]]
                && isInstalled
      ensures app.Some? ==> storage.ReadList(InstalledAppsKey) == AfterInstall(old(storage.ReadList(InstalledAppsKey)), app.value)
      ensures app.Some? ==> HasId(storage.ReadList(InstalledAppsKey), app.value.id)
    {
      if app.None? {
        return;
      }
      var installedApps := storage.ReadList(InstalledAppsKey);
      if HasId(installedApps, app.value.id) {
        return;
      }
      var newInstallList := installedApps + [app.value];
      storage.SetItem(InstalledAppsKey, newInstallList);
      isInstalled := true;
      InstallRecordsApp(installedApps, app.value);
    }
  }
}
