/** Collections, their folders and requests, the workspace → collection-id
    map, and the conversion of the server's listings into the page's
    collection tree. Every function here is one of the page's functional
    updaters (`prev.map(...)`, `prev.filter(...)`, `[x, ...prev]`) or a
    lookup; the state that holds their results is `Tester.ApiTester`. */
module Collections {
  import opened Common

  // ---------------------------------------------------------------------------
  // Records
  // ---------------------------------------------------------------------------

  /** A saved API as the server lists it: `{id, _id, method, url, folder_id,
      collection_id, ...}`; `altId` is `_id`. */
  datatype SavedApi = SavedApi(
    id: Option<string>,
    altId: Option<string>,
    verb: Option<string>,
    url: Option<string>,
    folderId: Option<string>,
    collectionId: Option<string>)

  /** An entry of a collection's `requests`: `{id, name}` when added from
      the menu, `{id, name, folder}` when saved, `{id, name, method, url,
      folder: null}` when fetched. */
  datatype RequestRef = RequestRef(id: Option<string>, name: string, folder: Option<string>)

  /** A folder: `{id, name}` when created from the page, with `description`
      and the member `apis` when fetched. */
  datatype Folder = Folder(id: Option<string>, name: string, description: string, apis: seq<SavedApi>)

  datatype Collection = Collection(
    id: string,
    name: string,
    description: string,
    requests: seq<RequestRef>,
    folders: seq<Folder>)

  /** A collection as the server lists it; `colId` and `cid` are `col_id` and
      `cid`. */
  datatype ServerCollection = ServerCollection(
    id: Option<string>,
    colId: Option<string>,
    cid: Option<string>,
    title: Option<string>,
    name: Option<string>,
    description: Option<string>)

  /** A folder as the server lists it; `freshId` is the random UUID the page
      draws for it when both ids are falsy. */
  datatype ServerFolder = ServerFolder(
    id: Option<string>,
    altId: Option<string>,
    name: string,
    description: string,
    freshId: string)

  /** `a || b`, both possibly falsy. */
  function Either(a: Option<string>, b: Option<string>): (r: Option<string>)
    ensures Truthy(a) ==> r == a
    ensures !Truthy(a) ==> r == b
  {
    if Truthy(a) then a else b
  }

  /** The first truthy of three optional ids. */
  function FirstId(a: Option<string>, b: Option<string>, c: Option<string>): (r: Option<string>)
    ensures r.Some? ==> Truthy(r) && (r == a || r == b || r == c)
    ensures r.None? <==> !Truthy(a) && !Truthy(b) && !Truthy(c)
  {
    if Truthy(a) then a else if Truthy(b) then b else if Truthy(c) then c else None
  }

  /** A collection freshly created on the page. */
  function NewCollection(id: string, name: string): Collection {
    Collection(id, name, "", [], [])
  }

  // ---------------------------------------------------------------------------
  // Lookups
  // ---------------------------------------------------------------------------

  /** `cols.find((c) => c.id === id)`. */
  function FindCollection(cols: seq<Collection>, id: string): (r: Option<Collection>)
    ensures r.Some? ==> r.value.id == id && exists i :: (0 <= i < |cols| && cols[i] == r.value
                        && forall j :: 0 <= j < i ==> cols[j].id != id)
    ensures r.None? <==> forall i :: 0 <= i < |cols| ==> cols[i].id != id
  {
    if cols == [] then None
    else if cols[0].id == id then Some(cols[0])
    else
      var r := FindCollection(cols[1..], id);
      assert r.Some? ==> exists i :: (0 <= i < |cols| && cols[i] == r.value
                         && forall j :: 0 <= j < i ==> cols[j].id != id) by {
        if r.Some? {
          var i :| 0 <= i < |cols[1..]| && cols[1..][i] == r.value
                   && forall j :: 0 <= j < i ==> cols[1..][j].id != id;
          assert cols[i + 1] == r.value;
          forall j | 0 <= j < i + 1 ensures cols[j].id != id {
            if j > 0 { assert cols[j] == cols[1..][j - 1]; }
          }
        }
      }
      r
  }

  /** `folders.find((f) => f.name === name)`: the first folder with exactly
      that name. */
  function FindFolder(folders: seq<Folder>, name: string): (r: Option<Folder>)
    ensures r.Some? ==> r.value.name == name && exists i :: (0 <= i < |folders| && folders[i] == r.value
                        && forall j :: 0 <= j < i ==> folders[j].name != name)
    ensures r.None? <==> forall i :: 0 <= i < |folders| ==> folders[i].name != name
  {
    if folders == [] then None
    else if folders[0].name == name then Some(folders[0])
    else
      var r := FindFolder(folders[1..], name);
      assert r.Some? ==> exists i :: (0 <= i < |folders| && folders[i] == r.value
                         && forall j :: 0 <= j < i ==> folders[j].name != name) by {
        if r.Some? {
          var i :| 0 <= i < |folders[1..]| && folders[1..][i] == r.value
                   && forall j :: 0 <= j < i ==> folders[1..][j].name != name;
          assert folders[i + 1] == r.value;
          forall j | 0 <= j < i + 1 ensures folders[j].name != name {
            if j > 0 { assert folders[j] == folders[1..][j - 1]; }
          }
        }
      }
      r
  }

  /** The folder the save handler reuses: looked up by exact name in the
      target collection of `cols`. */
  function ExistingFolder(cols: seq<Collection>, colId: string, name: string): Option<Folder> {
    match FindCollection(cols, colId)
    case None => None
    case Some(c) => FindFolder(c.folders, name)
  }

  // ---------------------------------------------------------------------------
  // Updaters
  // ---------------------------------------------------------------------------

  /** `prev.map((c) => c.id === id ? { ...c, name } : c)`. */
  function RenameAll(cols: seq<Collection>, id: string, name: string): (r: seq<Collection>)
    ensures |r| == |cols|
    ensures forall i :: 0 <= i < |cols| ==>
      r[i] == if cols[i].id == id then cols[i].(name := name) else cols[i]
  {
    if cols == [] then []
    else [if cols[0].id == id then cols[0].(name := name) else cols[0]] + RenameAll(cols[1..], id, name)
  }

  /** The copy `duplicateCollection` prepends. */
  function Copy(c: Collection, freshId: string): (r: Collection)
    ensures r.id == freshId && r.name == c.name + " (copy)"
    ensures r.description == c.description && r.requests == c.requests && r.folders == c.folders
  {
    c.(id := freshId, name := c.name + " (copy)")
  }

  /** `prev.filter((c) => c.id !== id)`. */
  function WithoutCollection(cols: seq<Collection>, id: string): (r: seq<Collection>)
    ensures |r| <= |cols|
    ensures forall c :: c in r <==> c in cols && c.id != id
    ensures |cols| == 1 ==> r == if cols[0].id != id then cols else []
  {
    if cols == [] then []
    else if cols[0].id == id then WithoutCollection(cols[1..], id)
    else [cols[0]] + WithoutCollection(cols[1..], id)
  }

  /** The filter works element by element and keeps the order: filtering a
      concatenation concatenates the filtered parts. */
  lemma {:induction false} WithoutCollectionAppend(a: seq<Collection>, b: seq<Collection>, id: string)
    ensures WithoutCollection(a + b, id) == WithoutCollection(a, id) + WithoutCollection(b, id)
  {
    if a == [] {
      assert a + b == b;
    } else {
      assert (a + b)[1..] == a[1..] + b;
      WithoutCollectionAppend(a[1..], b, id);
    }
  }

  /** Appends a folder to every collection with the id, as both folder
      handlers do. */
  function AddFolderTo(cols: seq<Collection>, colId: string, f: Folder): (r: seq<Collection>)
    ensures |r| == |cols|
    ensures forall i :: 0 <= i < |cols| ==>
      r[i] == if cols[i].id == colId then cols[i].(folders := cols[i].folders + [f]) else cols[i]
  {
    if cols == [] then []
    else
      [if cols[0].id == colId then cols[0].(folders := cols[0].folders + [f]) else cols[0]]
      + AddFolderTo(cols[1..], colId, f)
  }

  /** Appends a request to every collection with the id. */
  function AddRequestTo(cols: seq<Collection>, colId: string, q: RequestRef): (r: seq<Collection>)
    ensures |r| == |cols|
    ensures forall i :: 0 <= i < |cols| ==>
      r[i] == if cols[i].id == colId then cols[i].(requests := cols[i].requests + [q]) else cols[i]
  {
    if cols == [] then []
    else
      [if cols[0].id == colId then cols[0].(requests := cols[0].requests + [q]) else cols[0]]
      + AddRequestTo(cols[1..], colId, q)
  }

  // ---------------------------------------------------------------------------
  // Workspace map
  // ---------------------------------------------------------------------------

  /** No id listed twice. */
  predicate NoDuplicates(ids: seq<string>) {
    forall i, j :: 0 <= i < j < |ids| ==> ids[i] != ids[j]
  }

  /** `ids.filter((x) => x !== id)`. */
  function RemoveId(ids: seq<string>, id: string): (r: seq<string>)
    ensures |r| <= |ids|
    ensures forall x :: x in r <==> x in ids && x != id
    ensures NoDuplicates(ids) ==> NoDuplicates(r)
    ensures |ids| == 1 ==> r == if ids[0] != id then ids else []
  {
    if ids == [] then []
    else if ids[0] == id then RemoveId(ids[1..], id)
    else
      var t := RemoveId(ids[1..], id);
      assert NoDuplicates(ids) ==> ids[0] !in ids[1..];
      [ids[0]] + t
  }

  /** The filter keeps the relative order: filtering a concatenation
      concatenates the filtered parts. */
  lemma {:induction false} RemoveIdAppend(a: seq<string>, b: seq<string>, id: string)
    ensures RemoveId(a + b, id) == RemoveId(a, id) + RemoveId(b, id)
  {
    if a == [] {
      assert a + b == b;
    } else {
      assert (a + b)[1..] == a[1..] + b;
      RemoveIdAppend(a[1..], b, id);
    }
  }

  /** The result is `ids` with every `id` struck out, so removing an absent
      id changes nothing. */
  lemma {:induction false} RemoveAbsentId(ids: seq<string>, id: string)
    requires id !in ids
    ensures RemoveId(ids, id) == ids
  {
    if ids != [] {
      assert id !in ids[1..];
      RemoveAbsentId(ids[1..], id);
    }
  }

  /** The active workspace's list after a collection is created:
      `if (!map[ws]) map[ws] = []; if (!map[ws].includes(id)) map[ws].push(id)`. */
  function MapCollection(m: map<string, seq<string>>, ws: string, id: string): (r: map<string, seq<string>>)
    ensures r.Keys == m.Keys + {ws}
    ensures id in r[ws]
    ensures forall k :: k in m && k != ws ==> r[k] == m[k]
    ensures ws in m && id in m[ws] ==> r[ws] == m[ws]
    ensures ws in m && id !in m[ws] ==> r[ws] == m[ws] + [id]
    ensures ws !in m ==> r[ws] == [id]
  {
    var list := if ws in m then m[ws] else [];
    m[ws := if id in list then list else list + [id]]
  }

  /** Creating a collection never lists an id twice in the workspace. */
  lemma MapCollectionNoDuplicates(m: map<string, seq<string>>, ws: string, id: string)
    requires forall k :: k in m ==> NoDuplicates(m[k])
    ensures forall k :: k in MapCollection(m, ws, id) ==> NoDuplicates(MapCollection(m, ws, id)[k])
  {
    var r := MapCollection(m, ws, id);
    if ws in m && id !in m[ws] {
      var l := m[ws] + [id];
      forall i, j | 0 <= i < j < |l| ensures l[i] != l[j] {
        if j == |l| - 1 { assert l[i] == m[ws][i]; }
      }
    }
  }

  /** The map after a delete: every list loses `id`, every key stays. */
  function MapWithout(m: map<string, seq<string>>, id: string): (r: map<string, seq<string>>)
    ensures r.Keys == m.Keys
    ensures forall k :: k in r ==> id !in r[k]
    ensures forall k, x :: k in r && x != id ==> (x in r[k] <==> x in m[k])
    ensures forall k :: k in m ==> r[k] == RemoveId(m[k], id)
  {
    map k | k in m :: RemoveId(m[k], id)
  }

  /** `Object.keys(map).forEach((w) => { map[w] = map[w].filter(...) })`: one
      key at a time, reassigning each list. */
  method RemoveFromWorkspaces(m: map<string, seq<string>>, id: string) returns (r: map<string, seq<string>>)
    ensures r == MapWithout(m, id)
  {
    r := m;
    var todo := m.Keys;
    while todo != {}
      invariant todo <= m.Keys
      invariant r.Keys == m.Keys
      invariant forall k :: k in r ==> r[k] == if k in todo then m[k] else RemoveId(m[k], id)
      decreases |todo|
    {
      var k :| k in todo;
      r := r[k := RemoveId(m[k], id)];
      todo := todo - {k};
    }
  }

  /** `displayedCollections`: the collections listed for the active
      workspace when it has a non-empty list, else all of them. */
  function Displayed(cols: seq<Collection>, ids: Option<seq<string>>): (r: seq<Collection>)
    ensures ids.Some? && ids.value != [] ==> r == Listed(cols, ids.value)
    ensures !(ids.Some? && ids.value != []) ==> r == cols
    ensures |r| <= |cols|
  {
    if ids.Some? && ids.value != [] then Listed(cols, ids.value) else cols
  }

  /** The collections whose id is in `ids`, in the order of `cols` (not of
      `ids`). */
  function Listed(cols: seq<Collection>, ids: seq<string>): (r: seq<Collection>)
    ensures |r| <= |cols|
    ensures forall c :: c in r <==> c in cols && c.id in ids
    ensures |cols| == 1 ==> r == if cols[0].id in ids then cols else []
  {
    if cols == [] then []
    else if cols[0].id in ids then [cols[0]] + Listed(cols[1..], ids)
    else Listed(cols[1..], ids)
  }

  /** The sidebar filter keeps the list's order: filtering a concatenation
      concatenates the filtered parts. */
  lemma {:induction false} ListedAppend(a: seq<Collection>, b: seq<Collection>, ids: seq<string>)
    ensures Listed(a + b, ids) == Listed(a, ids) + Listed(b, ids)
  {
    if a == [] {
      assert a + b == b;
    } else {
      assert (a + b)[1..] == a[1..] + b;
      ListedAppend(a[1..], b, ids);
    }
  }

  // ---------------------------------------------------------------------------
  // Server listings → collection tree
  // ---------------------------------------------------------------------------

  /** `userApis.filter((api) => api.folder_id === folderId)`. */
  function FolderApis(apis: seq<SavedApi>, folderId: string): (r: seq<SavedApi>)
    ensures |r| <= |apis|
    ensures forall a :: a in r <==> a in apis && a.folderId == Some(folderId)
    ensures |apis| == 1 ==> r == if apis[0].folderId == Some(folderId) then apis else []
  {
    if apis == [] then []
    else if apis[0].folderId == Some(folderId) then [apis[0]] + FolderApis(apis[1..], folderId)
    else FolderApis(apis[1..], folderId)
  }

  /** A folder's requests keep the order of the listing. */
  lemma {:induction false} FolderApisAppend(a: seq<SavedApi>, b: seq<SavedApi>, folderId: string)
    ensures FolderApis(a + b, folderId) == FolderApis(a, folderId) + FolderApis(b, folderId)
  {
    if a == [] {
      assert a + b == b;
    } else {
      assert (a + b)[1..] == a[1..] + b;
      FolderApisAppend(a[1..], b, folderId);
    }
  }

  /** `userApis.filter((api) => !api.folder_id && api.collection_id === col.id)`. */
  function DirectApis(apis: seq<SavedApi>, colId: string): (r: seq<SavedApi>)
    ensures |r| <= |apis|
    ensures forall a :: a in r <==> a in apis && !Truthy(a.folderId) && a.collectionId == Some(colId)
    ensures |apis| == 1 ==>
      r == if !Truthy(apis[0].folderId) && apis[0].collectionId == Some(colId) then apis else []
  {
    if apis == [] then []
    else if !Truthy(apis[0].folderId) && apis[0].collectionId == Some(colId) then
      [apis[0]] + DirectApis(apis[1..], colId)
    else DirectApis(apis[1..], colId)
  }

  /** A collection's direct requests keep the order of the listing. */
  lemma {:induction false} DirectApisAppend(a: seq<SavedApi>, b: seq<SavedApi>, colId: string)
    ensures DirectApis(a + b, colId) == DirectApis(a, colId) + DirectApis(b, colId)
  {
    if a == [] {
      assert a + b == b;
    } else {
      assert (a + b)[1..] == a[1..] + b;
      DirectApisAppend(a[1..], b, colId);
    }
  }

  /** The request row for a saved API:
      `{ id: api.id || api._id, name: `${api.method || 'GET'} ${api.url || ''}` }`. */
  function RequestOf(a: SavedApi): (q: RequestRef)
    ensures q.id == Either(a.id, a.altId) && q.folder.None?
    ensures q.name == OrElse(a.verb, "GET") + " " + OrElse(a.url, "")
  {
    RequestRef(Either(a.id, a.altId), OrElse(a.verb, "GET") + " " + OrElse(a.url, ""), None)
  }

  function RequestsOf(apis: seq<SavedApi>): (qs: seq<RequestRef>)
    ensures |qs| == |apis|
    ensures forall i :: 0 <= i < |apis| ==> qs[i] == RequestOf(apis[i])
  {
    if apis == [] then [] else [RequestOf(apis[0])] + RequestsOf(apis[1..])
  }

  /** `f.id || f._id || crypto.randomUUID()`. */
  function FolderIdOf(f: ServerFolder): string {
    if Truthy(f.id) then f.id.value else if Truthy(f.altId) then f.altId.value else f.freshId
  }

  /** A listed folder with the saved APIs filed under it. */
  function FolderOf(f: ServerFolder, apis: seq<SavedApi>): Folder {
    var fid := FolderIdOf(f);
    Folder(Some(fid), f.name, f.description, FolderApis(apis, fid))
  }

  function FoldersOf(fs: seq<ServerFolder>, apis: seq<SavedApi>): (r: seq<Folder>)
    ensures |r| == |fs|
    ensures forall i :: 0 <= i < |fs| ==> r[i] == FolderOf(fs[i], apis)
  {
    if fs == [] then [] else [FolderOf(fs[0], apis)] + FoldersOf(fs[1..], apis)
  }

  /** `String(c.id)` of a falsy id. */
  function IdText(id: Option<string>): string {
    match id
    case Some(x) => x
    case None => "undefined"
  }

  /** `c.id || c.col_id || c.cid || String(c.id)`. */
  function CollectionIdOf(c: ServerCollection): string {
    match FirstId(c.id, c.colId, c.cid)
    case Some(x) => x
    case None => IdText(c.id)
  }

  /** `` c.title || c.name || `Collection ${c.id}` ``. */
  function CollectionNameOf(c: ServerCollection): string {
    OrElse(Either(c.title, c.name), "Collection " + IdText(c.id))
  }

  /** One collection of the listing with its folders and direct requests; a
      folder listing that failed or was not an array is `None`. */
  function Enrich(c: ServerCollection, folders: Option<seq<ServerFolder>>, apis: seq<SavedApi>): Collection {
    var id := CollectionIdOf(c);
    Collection(
      id,
      CollectionNameOf(c),
      OrElse(c.description, ""),
      RequestsOf(DirectApis(apis, id)),
      match folders
      case None => []
      case Some(fs) => FoldersOf(fs, apis))
  }

  /** A collection of the listing paired with the answer to its folder request. */
  datatype Listing = Listing(col: ServerCollection, folders: Option<seq<ServerFolder>>)

  function EnrichAll(ls: seq<Listing>, apis: seq<SavedApi>): (r: seq<Collection>)
    ensures |r| == |ls|
    ensures forall i :: 0 <= i < |ls| ==> r[i] == Enrich(ls[i].col, ls[i].folders, apis)
  {
    if ls == [] then [] else [Enrich(ls[0].col, ls[0].folders, apis)] + EnrichAll(ls[1..], apis)
  }

  /** How the saved APIs are distributed over a fetched collection: a folder
      holds exactly the APIs whose `folder_id` is its id; the collection's
      own requests are exactly the APIs with no folder and its id as
      `collection_id`, one row each, named `method url`; and a failed folder
      listing leaves the collection without folders. */
  lemma FetchPartition(c: ServerCollection, folders: Option<seq<ServerFolder>>, apis: seq<SavedApi>)
    ensures var r := Enrich(c, folders, apis);
      && (forall f, a :: f in r.folders ==>
            (a in f.apis <==> a in apis && f.id.Some? && a.folderId == f.id))
      && (forall a :: a in DirectApis(apis, r.id) <==>
            a in apis && !Truthy(a.folderId) && a.collectionId == Some(r.id))
      && |r.requests| == |DirectApis(apis, r.id)|
      && (forall i :: 0 <= i < |r.requests| ==>
            r.requests[i].name == OrElse(DirectApis(apis, r.id)[i].verb, "GET") + " "
                                  + OrElse(DirectApis(apis, r.id)[i].url, ""))
      && (folders.None? ==> r.folders == [])
  {
    var r := Enrich(c, folders, apis);
    if folders.Some? {
      forall f | f in r.folders ensures f.id.Some? && f.apis == FolderApis(apis, f.id.value) {
        var i :| 0 <= i < |r.folders| && r.folders[i] == f;
      }
    }
  }

  /** An API filed under a folder is never also listed as a direct request
      of the collection. */
  lemma FolderMembersNotDirect(apis: seq<SavedApi>, folderId: string, colId: string)
    requires folderId != ""
    ensures forall a :: a in FolderApis(apis, folderId) ==> a !in DirectApis(apis, colId)
  {
  }
}
