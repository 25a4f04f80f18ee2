/** Listing a directory page by page: folders first, then files, without building the combined list. */
module Listing {
  import opened Basics
  import opened Texts
  import opened Storage
  import opened StorageWrites
  import Directory

  datatype FolderItem = FolderItem(id: int, name: string)

  datatype FileItem = FileItem(id: Id, name: string, size: nat, isEnc: bool, isPublic: bool)

  datatype Page = InvalidPath | DirNotFound | Listed(path: int, total: int, folders: seq<FolderItem>, files: seq<FileItem>)

  /** What a query with this offset and limit returns of its rows. */
  function Slice<T>(rows: seq<T>, offset: nat, limit: nat): seq<T> {
    if offset >= |rows| then [] else First(rows[offset..], limit)
  }

  function FolderItems(s: State, ids: seq<int>): seq<FolderItem> {
    if ids == [] then []
    else (if ids[0] in s.dirs.rows then [FolderItem(ids[0], s.dirs.rows[ids[0]].path)] else []) + FolderItems(s, ids[1..])
  }

  predicate HasInfo(s: State, x: Id) {
    x in s.userFiles && s.userFiles[x].file in s.fileInfos
  }

  function ItemOf(s: State, x: Id): FileItem
    requires HasInfo(s, x)
  {
    var uf := s.userFiles[x];
    var fi := s.fileInfos[uf.file];
    FileItem(x, uf.name, fi.size, fi.isEnc, uf.isPublic)
  }

  /** The files shown for `ids`: those whose FileInfo is missing are skipped. */
  function FileItems(s: State, ids: seq<Id>): seq<FileItem> {
    if ids == [] then []
    else (if HasInfo(s, ids[0]) then [ItemOf(s, ids[0])] else []) + FileItems(s, ids[1..])
  }

  // ----- the use case -----

  method ListFiles(s: State, dirOrder: seq<int>, fileOrder: seq<Id>, user: string, root: Option<nat>,
                   virtualPath: string, page: int, pageSize: int) returns (r: Page)
    requires page >= 1 && pageSize >= 1
    requires root.Some? ==> root.value in s.dirs.rows
    ensures r.Listed? ==> Resolves(s, root, virtualPath) == Some(r.path)
                          && r == DirectoryPage(s, dirOrder, fileOrder, user, r.path, PageStart(page - 1, pageSize), pageSize)
    ensures virtualPath == "" || virtualPath == "0" ==>
              if root.Some? then r.Listed? && r.path == root.value else r.DirNotFound?
    ensures virtualPath != "" && virtualPath != "0" ==>
              && (r.InvalidPath? <==> forall n :: !IsNumber(virtualPath, n))
              && forall n | IsNumber(virtualPath, n) :: if n in s.dirs.rows then r.Listed? && r.path == n else r.DirNotFound?
    ensures r.Listed? && LiveBacked(s) ==>
              var all := Contents(s, dirOrder, fileOrder, user, r.path);
              Shown(r) == Slice(all, PageStart(page - 1, pageSize), pageSize) && r.total == |all|
  {
    ResolvesExactly(s, root, virtualPath);
    hide PageOf, PageStart, FilesIn, Directory.Children, Atoi, IsNumber, LiveBacked, Contents, Slice, Shown;
    var path: int;
    if virtualPath == "" || virtualPath == "0" {
      if root.None? {
        return DirNotFound;
      }
      path := root.value;
    } else {
      var parsed := Atoi(virtualPath);
      if parsed.None? {
        return InvalidPath;
      }
      if parsed.value !in s.dirs.rows {
        return DirNotFound;
      }
      path := parsed.value;
    }
    var folders := Directory.Children(s.dirs, dirOrder, user, path);
    var files := FilesIn(s, fileOrder, user, PathText(path));
    var offset := (page - 1) * pageSize;
    PageStartIsProduct(page - 1, pageSize);
    r := ListPage(s, path, folders, files, offset, pageSize);
    assert r == DirectoryPage(s, dirOrder, fileOrder, user, path, PageStart(page - 1, pageSize), pageSize);
    if LiveBacked(s) {
      PagesAreSlices(s, dirOrder, fileOrder, user, path, PageStart(page - 1, pageSize), pageSize);
    }
  }

  /** `folders` and `files` are what the two queries range over. */
  method ListPage(s: State, path: int, folders: seq<int>, files: seq<Id>, offset: nat, pageSize: nat) returns (r: Page)
    requires pageSize >= 1
    ensures r == PageOf(s, path, folders, files, offset, pageSize)
  {
    NoItems(s);
    hide FolderItems, FileItems;
    var folderCount, fileCount := |folders|, |files|;
    var folderItems: seq<FolderItem>, fileItems: seq<FileItem> := [], [];
    if offset < folderCount {
      var limit := pageSize;
      if offset + limit > folderCount {
        limit := folderCount - offset;
      }
      var listed := Slice(folders, offset, limit);
      assert listed == Slice(folders, offset, pageSize);
      folderItems := FillFolders(s, listed);
      var remaining := pageSize - |listed|;
      if remaining > 0 {
        fileItems := FillFiles(s, files, 0, remaining);
      }
    } else {
      fileItems := FillFiles(s, files, offset - folderCount, pageSize);
    }
    return Listed(path, folderCount + fileCount, folderItems, fileItems);
  }

  lemma NoItems(s: State)
    ensures FolderItems(s, []) == [] && FileItems(s, []) == []
  {
  }

  method FillFolders(s: State, listed: seq<int>) returns (items: seq<FolderItem>)
    ensures items == FolderItems(s, listed)
  {
    items := [];
    var i := 0;
    while i < |listed|
      invariant i <= |listed|
      invariant items + FolderItems(s, listed[i..]) == FolderItems(s, listed)
    {
      assert listed[i..][1..] == listed[i + 1..];
      if listed[i] in s.dirs.rows {
        items := items + [FolderItem(listed[i], s.dirs.rows[listed[i]].path)];
      }
      i := i + 1;
    }
  }

  method FillFiles(s: State, files: seq<Id>, offset: nat, limit: nat) returns (items: seq<FileItem>)
    ensures items == FileItems(s, Slice(files, offset, limit))
  {
    var listed := Slice(files, offset, limit);
    items := [];
    var i := 0;
    while i < |listed|
      invariant i <= |listed|
      invariant items + FileItems(s, listed[i..]) == FileItems(s, listed)
    {
      assert listed[i..][1..] == listed[i + 1..];
      if HasInfo(s, listed[i]) {
        items := items + [ItemOf(s, listed[i])];
      }
      i := i + 1;
    }
  }

  function Resolves(s: State, root: Option<nat>, virtualPath: string): Option<int> {
    if virtualPath == "" || virtualPath == "0" then (if root.Some? then Some(root.value) else None)
    else if Atoi(virtualPath).Some? && Atoi(virtualPath).value in s.dirs.rows then Atoi(virtualPath) else None
  }

  /** The empty text and "0" stand for the root; any other text for the directory whose number it is. */
  lemma {:induction false} ResolvesExactly(s: State, root: Option<nat>, virtualPath: string)
    ensures virtualPath == "" || virtualPath == "0" ==> Resolves(s, root, virtualPath) == root
    ensures virtualPath != "" && virtualPath != "0" ==>
              && (Atoi(virtualPath).None? <==> forall n :: !IsNumber(virtualPath, n))
              && forall n | IsNumber(virtualPath, n) ::
                   Atoi(virtualPath) == Some(n) && Resolves(s, root, virtualPath) == if n in s.dirs.rows then Some(n) else None
  {
    if Atoi(virtualPath).Some? {
      AtoiExactly(virtualPath, Atoi(virtualPath).value);
    }
    forall n | IsNumber(virtualPath, n) ensures Atoi(virtualPath) == Some(n) {
      AtoiExactly(virtualPath, n);
    }
  }

  /** `strconv.Itoa` of a directory identifier; rows have positive identifiers. */
  function PathText(path: int): string {
    if path >= 0 then Itoa(path) else "-" + Itoa(-path)
  }

  /** How many of the folders come at or after the offset. */
  function FoldersLeft(folders: seq<int>, offset: nat): nat {
    if offset < |folders| then |folders| - offset else 0
  }

  /** The files that fill a page after its folders. */
  function FilesOnPage(folders: seq<int>, files: seq<Id>, offset: nat, size: nat): seq<Id> {
    var before := FoldersLeft(folders, offset);
    if before >= size then [] else Slice(files, if before > 0 then 0 else offset - |folders|, size - before)
  }

  function PageOf(s: State, path: int, folders: seq<int>, files: seq<Id>, offset: nat, size: nat): (r: Page)
    ensures r.Listed? && r.path == path
  {
    Listed(path, |folders| + |files|, FolderItems(s, Slice(folders, offset, size)),
           FileItems(s, FilesOnPage(folders, files, offset, size)))
  }

  // ----- what a page is -----

  datatype Entry = Folder(dir: int) | File(file: Id)

  /** Everything in the directory, folders first. */
  function Everything(folders: seq<int>, files: seq<Id>): seq<Entry> {
    seq(|folders|, i requires 0 <= i < |folders| => Folder(folders[i])) + seq(|files|, i requires 0 <= i < |files| => File(files[i]))
  }

  /** The entries that a page shows. */
  function Shown(r: Page): seq<Entry>
    requires r.Listed?
  {
    seq(|r.folders|, i requires 0 <= i < |r.folders| => Folder(r.folders[i].id))
    + seq(|r.files|, i requires 0 <= i < |r.files| => File(r.files[i].id))
  }

  ghost predicate AllHaveInfo(s: State, files: seq<Id>) {
    forall i | 0 <= i < |files| :: HasInfo(s, files[i])
  }

  lemma {:induction false} FileItemsOneByOne(s: State, ids: seq<Id>)
    ensures |FileItems(s, ids)| <= |ids|
    ensures |FileItems(s, ids)| == |ids| <==> AllHaveInfo(s, ids)
    ensures AllHaveInfo(s, ids) ==> forall i | 0 <= i < |ids| :: FileItems(s, ids)[i] == ItemOf(s, ids[i])
  {
    if ids != [] {
      FileItemsOneByOne(s, ids[1..]);
      assert AllHaveInfo(s, ids) <==> HasInfo(s, ids[0]) && AllHaveInfo(s, ids[1..]) by {
        assert forall i | 0 < i < |ids| :: ids[i] == ids[1..][i - 1];
        assert forall i | 0 <= i < |ids[1..]| :: ids[1..][i] == ids[i + 1];
      }
    }
  }

  lemma {:induction false} FolderItemsOneByOne(s: State, ids: seq<int>)
    requires forall i | 0 <= i < |ids| :: ids[i] in s.dirs.rows
    ensures |FolderItems(s, ids)| == |ids|
    ensures forall i | 0 <= i < |ids| :: FolderItems(s, ids)[i] == FolderItem(ids[i], s.dirs.rows[ids[i]].path)
  {
    if ids != [] {
      FolderItemsOneByOne(s, ids[1..]);
    }
  }

  lemma {:induction false} SliceOfEverything(folders: seq<int>, files: seq<Id>, offset: nat, size: nat)
    requires size >= 1
    ensures Slice(Everything(folders, files), offset, size)
            == Everything(Slice(folders, offset, size), FilesOnPage(folders, files, offset, size))
  {
    var all := Everything(folders, files);
    var dirs, docs := Slice(folders, offset, size), FilesOnPage(folders, files, offset, size);
    var due, parts := Slice(all, offset, size), Everything(dirs, docs);
    assert |due| == |parts|;
    forall i | 0 <= i < |due| ensures due[i] == parts[i] {
      assert due[i] == all[offset + i];
    }
  }

  /** A page shows exactly the slice of everything that its number calls for, if and only if every file
      that belongs on it has its FileInfo. */
  lemma {:induction false} PageIsSliceExactly(s: State, path: int, folders: seq<int>, files: seq<Id>, offset: nat, size: nat)
    requires size >= 1 && forall i | 0 <= i < |folders| :: folders[i] in s.dirs.rows
    ensures Shown(PageOf(s, path, folders, files, offset, size)) == Slice(Everything(folders, files), offset, size)
            <==> AllHaveInfo(s, FilesOnPage(folders, files, offset, size))
  {
    var r := PageOf(s, path, folders, files, offset, size);
    var dirs, docs := Slice(folders, offset, size), FilesOnPage(folders, files, offset, size);
    SliceOfEverything(folders, files, offset, size);
    forall i | 0 <= i < |dirs| ensures dirs[i] in s.dirs.rows {
      assert dirs[i] == folders[offset + i];
    }
    hide FilesOnPage, Slice;
    FolderItemsOneByOne(s, dirs);
    FileItemsOneByOne(s, docs);
    assert |Everything(dirs, docs)| == |dirs| + |docs|;
    assert |Shown(r)| == |dirs| + |r.files|;
    if AllHaveInfo(s, docs) {
      assert Shown(r) == Everything(dirs, docs);
    }
  }

  /** The page of a user's directory. */
  function DirectoryPage(s: State, dirOrder: seq<int>, fileOrder: seq<Id>, user: string, path: int, offset: nat, size: nat): (r: Page)
    ensures r.Listed?
  {
    PageOf(s, path, Directory.Children(s.dirs, dirOrder, user, path), FilesIn(s, fileOrder, user, PathText(path)), offset, size)
  }

  function Contents(s: State, dirOrder: seq<int>, fileOrder: seq<Id>, user: string, path: int): seq<Entry> {
    Everything(Directory.Children(s.dirs, dirOrder, user, path), FilesIn(s, fileOrder, user, PathText(path)))
  }

  /** Where live files are backed, every page of a directory is the matching slice of folders followed by
      files, and Total counts them all. */
  lemma {:induction false} PagesAreSlices(s: State, dirOrder: seq<int>, fileOrder: seq<Id>, user: string, path: int, offset: nat, size: nat)
    requires size >= 1 && LiveBacked(s)
    ensures var r, all := DirectoryPage(s, dirOrder, fileOrder, user, path, offset, size), Contents(s, dirOrder, fileOrder, user, path);
            Shown(r) == Slice(all, offset, size) && r.total == |all|
  {
    var folders := Directory.Children(s.dirs, dirOrder, user, path);
    var files := FilesIn(s, fileOrder, user, PathText(path));
    Directory.ChildrenAreChildren(s.dirs, dirOrder, user, path);
    forall i | 0 <= i < |folders| ensures folders[i] in s.dirs.rows {
      assert folders[i] in folders && Directory.IsChild(s.dirs, user, path, folders[i]);
    }
    FilesAreLive(s, fileOrder, user, PathText(path));
    PageIsSliceExactly(s, path, folders, files, offset, size);
  }

  lemma {:induction false} FilesAreLive(s: State, order: seq<Id>, user: string, dir: string)
    ensures forall i | 0 <= i < |FilesIn(s, order, user, dir)| :: IsLive(s, FilesIn(s, order, user, dir)[i])
  {
    if order != [] {
      FilesAreLive(s, order[1..], user, dir);
    }
  }

  // ----- all pages together -----

  /** The offset of the page after the first `n`. */
  function PageStart(n: nat, size: nat): nat {
    if n == 0 then 0 else PageStart(n - 1, size) + size
  }

  lemma {:induction false} PageStartIsProduct(n: nat, size: nat)
    ensures PageStart(n, size) == n * size
  {
    if n > 0 {
      PageStartIsProduct(n - 1, size);
    }
  }

  /** The first `n` pages, one after the other. */
  function Pages<T>(all: seq<T>, size: nat, n: nat): seq<T> {
    if n == 0 then [] else Pages(all, size, n - 1) + Slice(all, PageStart(n - 1, size), size)
  }

  lemma {:induction false} PagesArePrefix<T>(all: seq<T>, size: nat, n: nat)
    ensures Pages(all, size, n) == First(all, PageStart(n, size))
  {
    if n > 0 {
      hide First, Slice;
      PagesArePrefix(all, size, n - 1);
      SliceContinues(all, PageStart(n - 1, size), size);
    }
  }

  lemma SliceContinues<T>(all: seq<T>, offset: nat, size: nat)
    ensures First(all, offset) + Slice(all, offset, size) == First(all, offset + size)
  {
  }

  lemma {:induction false} LaterPagesStartLater(size: nat, n: nat, m: nat)
    requires n <= m
    ensures PageStart(n, size) <= PageStart(m, size)
  {
    if n < m {
      LaterPagesStartLater(size, n, m - 1);
    }
  }

  /** Reading pages until they have covered the total yields every item once, in order, and nothing after. */
  lemma {:induction false} AllPagesAreEverything<T>(all: seq<T>, size: nat, n: nat, later: nat)
    requires PageStart(n, size) >= |all| && later >= n
    ensures Pages(all, size, n) == all
    ensures Slice(all, PageStart(later, size), size) == []
  {
    PagesArePrefix(all, size, n);
    LaterPagesStartLater(size, n, later);
  }

  /** What a reader sees who asks for pages 1 to `n`, one after the other. */
  function ReadPages(s: State, dirOrder: seq<int>, fileOrder: seq<Id>, user: string, path: int, size: nat, n: nat): seq<Entry> {
    if n == 0 then []
    else ReadPages(s, dirOrder, fileOrder, user, path, size, n - 1)
         + Shown(DirectoryPage(s, dirOrder, fileOrder, user, path, PageStart(n - 1, size), size))
  }

  lemma {:induction false} ReadingIsPaging(s: State, dirOrder: seq<int>, fileOrder: seq<Id>, user: string, path: int, size: nat, n: nat)
    requires size >= 1 && LiveBacked(s)
    ensures ReadPages(s, dirOrder, fileOrder, user, path, size, n) == Pages(Contents(s, dirOrder, fileOrder, user, path), size, n)
  {
    hide DirectoryPage, Contents, Slice, Shown;
    if n > 0 {
      ReadingIsPaging(s, dirOrder, fileOrder, user, path, size, n - 1);
      PagesAreSlices(s, dirOrder, fileOrder, user, path, PageStart(n - 1, size), size);
    }
  }

  /** Reading pages until they have covered Total shows every folder and then every file, once and in order. */
  lemma {:induction false} ReadingShowsEverything(s: State, dirOrder: seq<int>, fileOrder: seq<Id>, user: string, path: int, size: nat, n: nat)
    requires size >= 1 && LiveBacked(s)
    requires n * size >= DirectoryPage(s, dirOrder, fileOrder, user, path, 0, size).total
    ensures ReadPages(s, dirOrder, fileOrder, user, path, size, n) == Contents(s, dirOrder, fileOrder, user, path)
  {
    PageStartIsProduct(n, size);
    ReadingIsPaging(s, dirOrder, fileOrder, user, path, size, n);
    PagesAreSlices(s, dirOrder, fileOrder, user, path, 0, size);
    AllPagesAreEverything(Contents(s, dirOrder, fileOrder, user, path), size, n, n);
  }

  // ----- what there is to read -----

  /** The contents name each of the user's folders and live files in the directory once, and nothing else. */
  lemma {:induction false} ContentsExactly(s: State, dirOrder: seq<int>, fileOrder: seq<Id>, user: string, path: int)
    requires Directory.Enumerates(dirOrder, s.dirs)
    requires Enumerates(fileOrder, s)
    ensures var all := Contents(s, dirOrder, fileOrder, user, path);
            && NoDuplicates(all)
            && (forall d :: Folder(d) in all <==>
                  d in s.dirs.rows && s.dirs.rows[d].user == user && s.dirs.rows[d].parent == Some(path))
            && (path >= 0 ==> forall x :: File(x) in all <==>
                  x in s.userFiles && !s.userFiles[x].trashed && s.userFiles[x].user == user && s.userFiles[x].dir == Itoa(path))
  {
    var folders, files := Directory.Children(s.dirs, dirOrder, user, path), FilesIn(s, fileOrder, user, PathText(path));
    Directory.ChildrenAreChildren(s.dirs, dirOrder, user, path);
    Directory.ChildrenDistinct(s.dirs, dirOrder, user, path);
    FilesInExactly(s, fileOrder, user, PathText(path));
    EverythingExactly(folders, files);
  }

  lemma {:induction false} EverythingExactly(folders: seq<int>, files: seq<Id>)
    ensures forall d :: Folder(d) in Everything(folders, files) <==> d in folders
    ensures forall x :: File(x) in Everything(folders, files) <==> x in files
    ensures NoDuplicates(folders) && NoDuplicates(files) ==> NoDuplicates(Everything(folders, files))
  {
    var all := Everything(folders, files);
    forall d ensures Folder(d) in all <==> d in folders {
      if d in folders {
        var i :| 0 <= i < |folders| && folders[i] == d;
        assert all[i] == Folder(d);
      }
    }
    forall x ensures File(x) in all <==> x in files {
      if x in files {
        var i :| 0 <= i < |files| && files[i] == x;
        assert all[|folders| + i] == File(x);
      }
    }
  }

  /** Every item of a page carries what its rows say: a folder its path, a file its name, size and marks. */
  lemma {:induction false} ItemsShowRows(s: State, path: int, folders: seq<int>, files: seq<Id>, offset: nat, size: nat)
    ensures var r := PageOf(s, path, folders, files, offset, size);
            && (forall k | 0 <= k < |r.folders| ::
                  r.folders[k].id in s.dirs.rows && r.folders[k].name == s.dirs.rows[r.folders[k].id].path)
            && (forall k | 0 <= k < |r.files| :: ShowsRow(s, r.files[k]))
  {
    FolderItemsShowRows(s, Slice(folders, offset, size));
    FileItemsShowRows(s, FilesOnPage(folders, files, offset, size));
  }

  predicate ShowsRow(s: State, item: FileItem) {
    && item.id in s.userFiles && s.userFiles[item.id].file in s.fileInfos
    && item.name == s.userFiles[item.id].name && item.isPublic == s.userFiles[item.id].isPublic
    && item.size == s.fileInfos[s.userFiles[item.id].file].size && item.isEnc == s.fileInfos[s.userFiles[item.id].file].isEnc
  }

  lemma {:induction false} FileItemsShowRows(s: State, ids: seq<Id>)
    ensures forall k | 0 <= k < |FileItems(s, ids)| :: ShowsRow(s, FileItems(s, ids)[k])
  {
    if ids != [] {
      FileItemsShowRows(s, ids[1..]);
    }
  }

  lemma {:induction false} FolderItemsShowRows(s: State, ids: seq<int>)
    ensures forall k | 0 <= k < |FolderItems(s, ids)| ::
              var item := FolderItems(s, ids)[k]; item.id in s.dirs.rows && item.name == s.dirs.rows[item.id].path
  {
    if ids != [] {
      FolderItemsShowRows(s, ids[1..]);
    }
  }

  /** The files come in the order of the rows: at strictly increasing positions of it. */
  lemma {:induction false} FilesKeepOrder(s: State, order: seq<Id>, user: string, dir: string) returns (at: seq<nat>)
    ensures |at| == |FilesIn(s, order, user, dir)|
    ensures forall i | 0 <= i < |at| :: at[i] < |order| && order[at[i]] == FilesIn(s, order, user, dir)[i]
    ensures forall i, j | 0 <= i < j < |at| :: at[i] < at[j]
  {
    if order == [] {
      at := [];
    } else {
      var rest := FilesKeepOrder(s, order[1..], user, dir);
      var moved := seq(|rest|, i requires 0 <= i < |rest| => rest[i] + 1);
      at := if InDirectory(s, user, dir, order[0]) then [0] + moved else moved;
    }
  }

  /** And so do the folders. */
  lemma {:induction false} FoldersKeepOrder(s: State, order: seq<int>, user: string, path: int) returns (at: seq<nat>)
    ensures |at| == |Directory.Children(s.dirs, order, user, path)|
    ensures forall i | 0 <= i < |at| :: at[i] < |order| && order[at[i]] == Directory.Children(s.dirs, order, user, path)[i]
    ensures forall i, j | 0 <= i < j < |at| :: at[i] < at[j]
  {
    if order == [] {
      at := [];
    } else {
      var rest := FoldersKeepOrder(s, order[1..], user, path);
      var moved := seq(|rest|, i requires 0 <= i < |rest| => rest[i] + 1);
      at := if Directory.IsChild(s.dirs, user, path, order[0]) then [0] + moved else moved;
    }
  }
}
