/**
  Runs of directory operations on a mounted volume and of operations on any number of open
  files, in any order. The volume refines a tree: directories that list names, and files
  that hold bytes and, where they are open, a position. Every sector keeps exactly one
  owner throughout, but for the headers of files without bytes that are removed: those
  are left in use without an owner.
*/
module VolumeRuns {
  import opened FileUtil
  import opened Blocks
  import opened Names
  import opened FileSpec
  import opened FileInv
  import opened FileBlocks
  import FileRuns
  import opened FileSpace
  import FileShrink
  import FileWrite
  import TruncateSpec
  import opened FileLinks
  import opened DirInv
  import opened DirLink
  import opened DirSpec
  import opened Dir
  import opened DirChange
  import opened DirTouch
  import opened VolumeInv
  import opened VolumeOps
  import FileOpen
  import opened VolumeFrame
  import opened Mounted

  datatype VolumeOp =
    | MakeFile(d: int, name: seq<byte>)
    | MakeDir(d: int, name: seq<byte>)
    | Remove(d: int, name: seq<byte>)
    | Rename(d: int, name: seq<byte>, newDir: int, newName: seq<byte>)
    | OpenNamed(d: int, name: seq<byte>, modeRead: bool, modeWrite: bool)
    | Use(op: FileRuns.Op)

  ghost predicate CanMake(k: Disk, intl: bool, d: int, name: seq<byte>) {
    && VolOK(k.v) && d in k.F.chains && |k.F.chains[d]| == HT_SIZE
    && !Refused(k.v, k.F, intl, d, name, -1)
  }

  ghost function Make(k: Disk, intl: bool, d: int, name: seq<byte>, isDir: bool): Disk {
    if !CanMake(k, intl, d, name) then k
    else
      var s := FirstFree(k.v);
      if s == d then k
      else
        var n := NewEntryNode(s, d, name, if isDir then ST_DIR else ST_FILE);
        Disk(Created(Take(k.v, s), k.F, d, s, n, intl), WithEntry(k.F, d, s, n, isDir, intl),
             if isDir then k.files else k.files[s := FileRuns.Closed(s)])
  }

  /** The blocks an entry frees, found by walking them. */
  ghost function FreeBlocksOf(w: Vol, n: Node, s: int, isDir: bool): Vol {
    if isDir then w.(free := w.free + {s})
    else
      match FreeFileBlocks(w, n)
      case None => w
      case Some(u) => u.(free := u.free + {s})
  }

  /** An operation on one of the files. */
  ghost function UseFile(k: Disk, op: FileRuns.Op): Disk {
    if !VolOK(k.v) then k
    else
      var w := FileRuns.Step(FileRuns.World(k.v, k.files), op);
      Disk(w.v, k.F, w.files)
  }

  /** The disk after an operation; one that does not apply changes nothing. */
  ghost function Step(k: Disk, intl: bool, op: VolumeOp): Disk {
    match op
    case MakeFile(d, name) => Make(k, intl, d, name, false)
    case MakeDir(d, name) => Make(k, intl, d, name, true)
    case Remove(d, name) =>
      var s := EntryNamed(k.v, k.F, intl, d, name);
      if s !in k.F.place || !HasPlace(k.F, s) || !Removable(k.v, k.F, intl, d, name) then k
      else
        Disk(FreeBlocksOf(UnlinkIn(k.v, k.F, s), NodeAt(k.v, s), s, s in k.F.chains), WithoutEntry(k.F, s), k.files - {s})
    case Rename(d, name, newDir, newName) =>
      var s := EntryNamed(k.v, k.F, intl, d, name);
      if s !in k.F.place || !HasPlace(k.F, s) || |newName| > MAX_NAME_LEN || (d == newDir && name == newName) then k
      else if newDir !in Unlink(k.F, s).chains || |Unlink(k.F, s).chains[newDir]| != HT_SIZE then k
      else Disk(Renamed(k.v, k.F, s, newDir, newName, intl), RenamedForest(k.F, s, newDir, newName, intl), k.files)
    case OpenNamed(d, name, r, w) =>
      var s := EntryNamed(k.v, k.F, intl, d, name);
      if s in k.files then UseFile(k, FileRuns.OpenFile(s, r, w))
      else if s == -1 && w && CanMake(k, intl, d, name) then
        UseFile(Make(k, intl, d, name, false), FileRuns.OpenFile(FirstFree(k.v), r, w))
      else k
    case Use(op) => UseFile(k, op)
  }

  /** The sector that an operation leaves without an owner: the header of a file without bytes that is removed. */
  ghost function Dropped(k: Disk, intl: bool, op: VolumeOp): set<int> {
    match op
    case Remove(d, name) =>
      var s := EntryNamed(k.v, k.F, intl, d, name);
      if Removable(k.v, k.F, intl, d, name) && IsEmptyFile(k.v, k.F, s) then {s} else {}
    case _ => {}
  }

  /** What an operation returns to the caller. */
  ghost function Output(k: Disk, op: VolumeOp): seq<byte> {
    match op
    case Use(op) => FileRuns.Output(FileRuns.World(k.v, k.files), op)
    case _ => []
  }

  /* ---- when an operation may run ---- */

  /** A new entry may be linked: the block it is linked from is not that of a file open for writing. */
  ghost predicate MayLink(k: Disk, intl: bool, d: int, name: seq<byte>) {
    d in k.F.chains && |k.F.chains[d]| == HT_SIZE && k.v.free != {} ==> !IsWriter(k, LinkPoint(k.F, d, Hash(name, intl)))
  }

  ghost predicate NoWriterAt(k: Disk, points: set<int>) {
    forall x :: x in points ==> !IsWriter(k, x)
  }

  /** The sector is a directory, or it cannot be read as an entry block. */
  ghost predicate DirOrNone(k: Disk, d: int) {
    d in k.F.chains || ReadEntry(k.v, d) == None
  }

  /** A rename that finds its entry, and is to a new name that is not too long. */
  ghost predicate Renames(k: Disk, s: int, d: int, name: seq<byte>, newDir: int, newName: seq<byte>) {
    s in k.F.place && HasPlace(k.F, s) && |newName| <= MAX_NAME_LEN && !(d == newDir && name == newName)
  }

  /**
    The sectors named as directories are directories. One that cannot be read is refused,
    but not as the target of a rename, where the entry has been taken out by then.
  */
  ghost predicate NamesDirs(k: Disk, intl: bool, op: VolumeOp) {
    match op
    case MakeFile(d, _) => DirOrNone(k, d)
    case MakeDir(d, _) => DirOrNone(k, d)
    case Remove(d, _) => DirOrNone(k, d)
    case Rename(d, name, newDir, newName) =>
      DirOrNone(k, d) && (Renames(k, EntryNamed(k.v, k.F, intl, d, name), d, name, newDir, newName) ==> newDir in k.F.chains)
    case OpenNamed(d, _, _, _) => DirOrNone(k, d)
    case Use(_) => true
  }

  /**
    An operation may run when it names directories, a file that is removed or opened is
    closed, no other entry has the new name, a directory is not moved into itself, and none
    of the blocks written is the header of a file that is open for writing. For the
    operations on files see FileRuns.Allowed.
  */
  ghost predicate Allowed(k: Disk, intl: bool, op: VolumeOp) {
    NamesDirs(k, intl, op) &&
    match op
    case MakeFile(d, name) => MayLink(k, intl, d, name)
    case MakeDir(d, name) => MayLink(k, intl, d, name)
    case Remove(d, name) =>
      var s := EntryNamed(k.v, k.F, intl, d, name);
      s in k.F.place && HasPlace(k.F, s) && Removable(k.v, k.F, intl, d, name) ==>
        (s in k.files ==> k.files[s].Closed?) && NoWriterAt(k, {UnlinkPoint(k.F, s)})
    case Rename(d, name, newDir, newName) =>
      var s := EntryNamed(k.v, k.F, intl, d, name);
      Renames(k, s, d, name, newDir, newName) ==>
        && newDir != s && !Taken(k.v, k.F, intl, newDir, newName, s)
        && (newDir in Unlink(k.F, s).chains && |Unlink(k.F, s).chains[newDir]| == HT_SIZE ==>
              NoWriterAt(k, RenamePoints(k.F, s, newDir, Hash(newName, intl))))
    case OpenNamed(d, name, r, w) =>
      var s := EntryNamed(k.v, k.F, intl, d, name);
      && (s in k.files ==> k.files[s].Closed?)
      && (s == -1 && w ==> MayLink(k, intl, d, name))
    case Use(op) => FileRuns.Allowed(FileRuns.World(k.v, k.files), op)
  }

  /* ---- the simple model ---- */

  /** The directories, each with the names of its entries as they were given, and the files. */
  datatype Tree = Tree(dirs: map<int, map<int, seq<byte>>>, files: map<int, FileRuns.View>)

  ghost function FileViews(k: Disk, Ls: map<int, Layout>): map<int, FileRuns.View> {
    map s | s in k.files && s in Ls :: FileRuns.ViewOf(k.v, Current(k.v, k.files[s]), Ls[s])
  }

  ghost function TreeOf(k: Disk, Ls: map<int, Layout>): Tree {
    Tree(map d | d in k.F.chains :: Listing(k.v, k.F, d), FileViews(k, Ls))
  }

  /** Name `name` of directory `d` stands for entry `s`, without regard to case. */
  ghost predicate Means(t: Tree, intl: bool, d: int, name: seq<byte>, s: int) {
    |name| <= 30 && d in t.dirs && s in t.dirs[d] && Upper(t.dirs[d][s], intl) == Upper(name, intl)
  }

  ghost predicate NoEntry(t: Tree, intl: bool, d: int, name: seq<byte>) {
    forall s :: !Means(t, intl, d, name, s)
  }

  /** The sectors that the directories and files take: the tree alone says how many. */
  ghost function TreeBlocks(t: Tree): nat {
    |t.dirs| + BlocksUsed(t.files)
  }

  /** May an entry of the name be made, where there are `total` sectors for directories and files? */
  ghost predicate Makes(t: Tree, intl: bool, total: int, d: int, name: seq<byte>) {
    d in t.dirs && |name| <= 30 && NoEntry(t, intl, d, name) && TreeBlocks(t) < total
  }

  ghost predicate Unnamed(t: Tree, s: int) {
    s !in t.files && s !in t.dirs
  }

  /** A new entry, at a sector that nothing else has, unless there is no room. */
  ghost predicate Made(t: Tree, intl: bool, total: int, d: int, name: seq<byte>, isDir: bool, t': Tree) {
    if !Makes(t, intl, total, d, name) then t' == t
    else exists s :: Unnamed(t, s) && t' == WithNew(t, d, name, isDir, s)
  }

  /** A new file that is open, likewise. */
  ghost predicate MadeOpen(t: Tree, intl: bool, total: int, d: int, name: seq<byte>, modeRead: bool, t': Tree) {
    if !Makes(t, intl, total, d, name) then t' == t
    else exists s :: Unnamed(t, s) && t' == Opened(WithNew(t, d, name, false, s), s, modeRead, true)
  }

  ghost function Opened(t: Tree, s: int, modeRead: bool, modeWrite: bool): Tree {
    t.(files := FileRuns.ViewStep(t.files, FileRuns.OpenFile(s, modeRead, modeWrite)))
  }

  ghost function WithNew(t: Tree, d: int, name: seq<byte>, isDir: bool, s: int): Tree
    requires d in t.dirs
  {
    var dirs := t.dirs[d := t.dirs[d][s := name]];
    if isDir then Tree(dirs[s := map[]], t.files)
    else Tree(dirs, t.files[s := FileRuns.View([], 0, false, false, false)])
  }

  ghost function WithoutOld(t: Tree, d: int, s: int): Tree
    requires d in t.dirs
  {
    Tree(t.dirs[d := t.dirs[d] - {s}] - {s}, t.files - {s})
  }

  ghost function WithMoved(t: Tree, d: int, s: int, newDir: int, newName: seq<byte>): Tree
    requires d in t.dirs && newDir in t.dirs
  {
    var dirs := t.dirs[d := t.dirs[d] - {s}];
    t.(dirs := dirs[newDir := dirs[newDir][s := newName]])
  }

  /** The operation removes a file without bytes, and so loses a sector. */
  ghost predicate Loses(t: Tree, intl: bool, op: VolumeOp) {
    op.Remove? && exists s :: Means(t, intl, op.d, op.name, s) && s in t.files && t.files[s].bytes == []
  }

  /** The number of sectors for directories and files after an operation. */
  ghost function TotalAfter(t: Tree, intl: bool, total: int, op: VolumeOp): int {
    if Loses(t, intl, op) then total - 1 else total
  }

  /** What an operation does to the tree, and what it returns, where there are `total` sectors. */
  ghost predicate TreeStep(t: Tree, intl: bool, total: int, op: VolumeOp, t': Tree, out: seq<byte>) {
    match op
    case MakeFile(d, name) => Made(t, intl, total, d, name, false, t') && out == []
    case MakeDir(d, name) => Made(t, intl, total, d, name, true, t') && out == []
    case Remove(d, name) =>
      && out == []
      && (NoEntry(t, intl, d, name) ==> t' == t)
      && (forall s :: Means(t, intl, d, name, s) ==>
            t' == if s in t.dirs && t.dirs[s] != map[] then t else WithoutOld(t, d, s))
    case Rename(d, name, newDir, newName) =>
      && out == []
      && (NoEntry(t, intl, d, name) ==> t' == t)
      && (forall s :: Means(t, intl, d, name, s) ==>
            t' == if newDir !in t.dirs || |newName| > 30 || (d == newDir && name == newName) then t
                  else WithMoved(t, d, s, newDir, newName))
    case OpenNamed(d, name, r, w) =>
      && out == []
      && (NoEntry(t, intl, d, name) ==> if w then MadeOpen(t, intl, total, d, name, r, t') else t' == t)
      && (forall s :: Means(t, intl, d, name, s) ==> t' == Opened(t, s, r, w))
    case Use(op) => t' == t.(files := FileRuns.ViewStep(t.files, op)) && out == FileRuns.ViewOutput(t.files, op)
  }

  /* ---- names ---- */

  /** A name means the same on the disk and in the tree. */
  lemma NameMeans(k: Disk, intl: bool, Ls: map<int, Layout>, own: set<int>, d: int, name: seq<byte>)
    requires DiskOK(k, intl, Ls, own)
    ensures var s, t := EntryNamed(k.v, k.F, intl, d, name), TreeOf(k, Ls);
            && (s in k.F.place <==> s != -1)
            && (s != -1 ==> HasPlace(k.F, s) && k.F.place[s].dir == d && d in k.F.chains && Means(t, intl, d, name, s)
                            && forall x :: Means(t, intl, d, name, x) ==> x == s)
            && (s == -1 ==> NoEntry(t, intl, d, name))
  {
    hide Upper, NameOf, Linked, InUse, HasPlace, DiskOK;
    DiskParts(k, intl, Ls, own);
    var s, t := EntryNamed(k.v, k.F, intl, d, name), TreeOf(k, Ls);
    EntryNamedIs(k.v, k.F, intl, d, name);
    if s != -1 {
      LinkedEntry(k.v, k.F, intl, s);
      PlaceInDir(k.F, s);
    }
    forall x | Means(t, intl, d, name, x) ensures s != -1 && x == s {
      MeansNames(k, intl, Ls, d, name, x);
      assert NamesEntry(k.v, k.F, intl, d, name, x);
    }
  }

  lemma MeansNames(k: Disk, intl: bool, Ls: map<int, Layout>, d: int, name: seq<byte>, x: int)
    requires Means(TreeOf(k, Ls), intl, d, name, x)
    ensures NamesEntry(k.v, k.F, intl, d, name, x)
  {
    hide Upper, NameOf;
  }

  lemma PlaceInDir(F: Forest, s: int)
    requires s in F.place && HasPlace(F, s)
    ensures F.place[s].dir in F.chains
  {
  }

  lemma EntryNamedIs(v: Vol, F: Forest, intl: bool, d: int, name: seq<byte>)
    requires Linked(v, F, intl)
    ensures var s := EntryNamed(v, F, intl, d, name);
            && (s != -1 ==> NamesEntry(v, F, intl, d, name, s))
            && (forall x :: NamesEntry(v, F, intl, d, name, x) ==> s != -1 && x == s)
            && -1 !in F.place
  {
    hide Linked, Upper, UpperName, Hash;
    LinkedParts(v, F, intl);
    if -1 in F.place {
      LinkedEntry(v, F, intl, -1);
    }
    var s := EntryNamed(v, F, intl, d, name);
    forall x | NamesEntry(v, F, intl, d, name, x) ensures s != -1 && x == s {
      assert exists y :: NamesEntry(v, F, intl, d, name, y);
      assert NamesEntry(v, F, intl, d, name, s);
    }
  }

  /* ---- each operation ---- */

  lemma NewNameIsNoEntry(k: Disk, intl: bool, Ls: map<int, Layout>, d: int, name: seq<byte>)
    requires d in k.F.chains && |name| <= MAX_NAME_LEN
    ensures NewName(k.v, k.F, intl, d, name) <==> NoEntry(TreeOf(k, Ls), intl, d, name)
  {
    hide Upper, NameOf;
    var m, t := Listing(k.v, k.F, d), TreeOf(k, Ls);
    if !NewName(k.v, k.F, intl, d, name) {
      var s :| s in m && Upper(m[s], intl) == Upper(name, intl);
      assert Means(t, intl, d, name, s);
    }
    forall s | Means(t, intl, d, name, s) ensures s in m && Upper(m[s], intl) == Upper(name, intl) {
    }
  }

  /** The two trees agree where directories and files agree. */
  lemma TreeIs(k: Disk, Ls: map<int, Layout>, t: Tree)
    requires t.dirs.Keys == k.F.chains.Keys && t.files == FileViews(k, Ls)
    requires forall d :: d in t.dirs ==> t.dirs[d] == Listing(k.v, k.F, d)
    ensures TreeOf(k, Ls) == t
  {
    hide Listing, FileViews;
    assert forall d :: d in t.dirs <==> d in t.dirs.Keys;
    assert forall d :: d in k.F.chains <==> d in k.F.chains.Keys;
    var u := TreeOf(k, Ls);
    assert u.dirs == t.dirs;
  }

  lemma TreeDirs(k: Disk, Ls: map<int, Layout>)
    ensures TreeOf(k, Ls).dirs.Keys == k.F.chains.Keys
    ensures TreeOf(k, Ls).files == FileViews(k, Ls)
    ensures forall d :: d in TreeOf(k, Ls).dirs <==> d in k.F.chains
    ensures forall d :: d in k.F.chains ==> TreeOf(k, Ls).dirs[d] == Listing(k.v, k.F, d)
  {
  }

  lemma WorldKeys(k: Disk, Ls: map<int, Layout>)
    requires forall s :: s in k.files <==> s in Ls
    ensures WorldOf(k).files.Keys == Ls.Keys
  {
    hide Current;
    forall s ensures s in WorldOf(k).files.Keys <==> s in Ls.Keys {
      assert s in Ls.Keys <==> s in Ls;
      assert s in WorldOf(k).files.Keys <==> s in k.files;
    }
  }

  lemma FileViewsKeys(k: Disk, intl: bool, Ls: map<int, Layout>, own: set<int>)
    requires DiskOK(k, intl, Ls, own)
    ensures forall s :: s in FileViews(k, Ls) <==> s in k.files
    ensures forall s :: s in k.files <==> s in Ls
    ensures FileViews(k, Ls) == FileRuns.Views(WorldOf(k), Ls)
  {
    hide DiskOK, FileRuns.ViewOf, Linked, FileRuns.FileOK, FileRuns.OneOwner, Current;
    DiskParts(k, intl, Ls, own);
    WorldKeys(k, Ls);
  }

  lemma NothingListed(v: Vol, F: Forest, d: int)
    requires ForestOK(F) && d !in F.chains
    ensures Listing(v, F, d) == map[]
  {
    assert forall s :: s in F.place ==> HasPlace(F, s);
  }

  lemma CanMakeIs(k: Disk, intl: bool, Ls: map<int, Layout>, own: set<int>, d: int, name: seq<byte>)
    requires DiskOK(k, intl, Ls, own)
    ensures CanMake(k, intl, d, name) <==>
            d in k.F.chains && |name| <= MAX_NAME_LEN && NoEntry(TreeOf(k, Ls), intl, d, name) && k.v.free != {}
  {
    hide Linked, Listing, NewName, InUse, Upper, NoEntry, DiskOK;
    DiskParts(k, intl, Ls, own);
    if d in k.F.chains {
      LinkedDir(k.v, k.F, intl, d);
      if |name| <= MAX_NAME_LEN {
        NewNameIsNoEntry(k, intl, Ls, d, name);
      }
    }
  }

  /** A change of the directories that writes none of the writers' headers leaves all other blocks of files. */
  lemma TouchedApart(k: Disk, intl: bool, Ls: map<int, Layout>, own: set<int>, v': Vol, points: set<int>, t: int)
    requires DiskOK(k, intl, Ls, own) && SameOutside(k.v, v', points) && NoWriterAt(k, points) && t in k.files && t in Ls
    requires forall x :: x in points ==> x in k.F.place || x in k.F.chains || x in k.v.free
    ensures OnlyHeader(k, v', t, Ls[t])
  {
    hide DiskOK, Linked, FileRuns.FileOK, Current;
    DiskParts(k, intl, Ls, own);
    forall x | x in Ls[t].own.Keys && (x != t || IsWriter(k, t)) ensures x !in points {
      if x in k.files {
        PlaceOnDisk(k.v, Current(k.v, k.files[x]), Ls[x]);
      }
    }
  }

  lemma GrewFacts(k: Disk, k': Disk, intl: bool, d: int, s: int, name: seq<byte>, isDir: bool)
    requires Grew(k.v, k.F, k'.v, k'.F, intl, d, NewEntryNode(s, d, name, if isDir then ST_DIR else ST_FILE), isDir)
    ensures k'.F.chains.Keys == k.F.chains.Keys + (if isDir then {s} else {}) && k'.v.last == k.v.last
    ensures Listing(k'.v, k'.F, d) == Listing(k.v, k.F, d)[s := name]
    ensures forall e :: e != d ==> Listing(k'.v, k'.F, e) == Listing(k.v, k.F, e)
  {
    hide Listing, TreeOK, Upper, NodeAt;
  }

  lemma MakeIs(k: Disk, intl: bool, d: int, name: seq<byte>, isDir: bool)
    ensures CanMake(k, intl, d, name) && FirstFree(k.v) != d ==>
              var s := FirstFree(k.v);
              var n := NewEntryNode(s, d, name, if isDir then ST_DIR else ST_FILE);
              Make(k, intl, d, name, isDir) ==
              Disk(Created(Take(k.v, s), k.F, d, s, n, intl), WithEntry(k.F, d, s, n, isDir, intl),
                   if isDir then k.files else k.files[s := FileRuns.Closed(s)])
    ensures !CanMake(k, intl, d, name) ==> Make(k, intl, d, name, isDir) == k
  {
    hide CanMake, Created, WithEntry;
  }

  lemma CanMakeFacts(k: Disk, intl: bool, d: int, name: seq<byte>)
    requires CanMake(k, intl, d, name)
    ensures VolOK(k.v) && d in k.F.chains && |k.F.chains[d]| == HT_SIZE && |name| <= MAX_NAME_LEN
    ensures NewName(k.v, k.F, intl, d, name) && FirstFree(k.v) in k.v.free
  {
  }

  /** The files and their layouts once an entry is made at sector `s`. */
  ghost function MadeLs(Ls: map<int, Layout>, s: int, isDir: bool): map<int, Layout> {
    WithFile(Ls, s, isDir)
  }

  lemma MadeRest(k: Disk, k': Disk, Ls: map<int, Layout>, s: int, isDir: bool)
    requires (forall t :: t in k.files <==> t in Ls) && s !in k.files
    requires k'.files == if isDir then k.files else k.files[s := FileRuns.Closed(s)]
    ensures RestLs(k', MadeLs(Ls, s, isDir)) == WithFile(RestLs(k, Ls), s, isDir)
    ensures forall t :: IsWriter(k', t) <==> IsWriter(k, t)
  {
  }

  lemma FreeIsNoFile(k: Disk, intl: bool, Ls: map<int, Layout>, own: set<int>, s: int)
    requires DiskOK(k, intl, Ls, own) && s in k.v.free
    ensures s !in k.files && s !in Ls && s !in k.F.chains && s !in k.F.place
  {
    hide DiskOK, Linked, FileRuns.FileOK, Current;
    DiskParts(k, intl, Ls, own);
  }

  /** The volume after an entry is made is whole. */
  lemma MadeDisk(k: Disk, intl: bool, Ls: map<int, Layout>, own: set<int>, d: int, name: seq<byte>, isDir: bool, s: int)
    requires DiskOK(k, intl, Ls, own) && CanMake(k, intl, d, name) && MayLink(k, intl, d, name) && s == FirstFree(k.v)
    ensures s != d && |k.F.chains[d]| == HT_SIZE && s in k.v.free && s !in k.files && s !in k.F.chains && s !in k.F.place
    ensures var k', Ls' := Make(k, intl, d, name, isDir), MadeLs(Ls, s, isDir);
            var n := NewEntryNode(s, d, name, if isDir then ST_DIR else ST_FILE);
            && DiskOK(k', intl, Ls', own)
            && Grew(k.v, k.F, k'.v, k'.F, intl, d, n, isDir)
            && k'.files == (if isDir then k.files else k.files[s := FileRuns.Closed(s)])
            && FileViews(k', Ls') ==
               if isDir then FileViews(k, Ls) else FileViews(k, Ls)[s := FileRuns.View([], 0, false, false, false)]
  {
    hide DiskOK, WholeOK, Linked, Created, WithEntry, Make, CanMake, SameFiles, Grew, NewName, FileRuns.FileOK, Current, Hash,
         LinkPoint, SameOutside, OnlyHeader, EmptyLayout, FileViews, NewEntryNode;
    DiskParts(k, intl, Ls, own);
    DiskIsWhole(k, intl, Ls, own);
    CanMakeFacts(k, intl, d, name);
    FreeIsNoFile(k, intl, Ls, own, s);
    var R, W := RestLs(k, Ls), own + WriterSectors(k, Ls);
    CreateWhole(k.v, k.F, intl, R, W, d, s, name, isDir);
    MakeIs(k, intl, d, name, isDir);
    var k', Ls' := Make(k, intl, d, name, isDir), MadeLs(Ls, s, isDir);
    MadeRest(k, k', Ls, s, isDir);
    MadeKept(k, intl, Ls, own, d, name, isDir, s, k');
    MadeKeys(k, k', intl, d, s, name, isDir);
    MadeFiles(k, k', R, s, isDir);
    WholeIsDisk(k, k', intl, Ls, Ls', own, own);
    MadeViews(k, k', intl, Ls, Ls', own, s, isDir);
  }

  lemma MadeKept(k: Disk, intl: bool, Ls: map<int, Layout>, own: set<int>, d: int, name: seq<byte>, isDir: bool, s: int, k': Disk)
    requires DiskOK(k, intl, Ls, own) && d in k.F.chains && |k.F.chains[d]| == HT_SIZE && MayLink(k, intl, d, name)
    requires s in k.v.free && s !in k.files && (forall t :: t in k.files <==> t in Ls)
    requires var n := NewEntryNode(s, d, name, if isDir then ST_DIR else ST_FILE);
             k'.v == Created(Take(k.v, s), k.F, d, s, n, intl)
    requires k'.files == if isDir then k.files else k.files[s := FileRuns.Closed(s)]
    ensures FilesKept(k, k', Ls, MadeLs(Ls, s, isDir)) && |k'.v.disk| == |k.v.disk| && k'.v.last == k.v.last
  {
    hide DiskOK, Created, Hash, LinkPoint, OnlyHeader, EmptyLayout, SameOutside, Linked, FileRuns.OneOwner, FileRuns.FileOK, Current,
         InUse, MadeLs;
    var n, h := NewEntryNode(s, d, name, if isDir then ST_DIR else ST_FILE), Hash(name, intl);
    CreatedTouches(k.v, k.F, d, s, n, intl);
    TouchShape(k.v, k'.v, {LinkPoint(k.F, d, h), s});
    DiskParts(k, intl, Ls, own);
    LinkPointKnown(k.F, d, h);
    forall t | t in k.files ensures OnlyHeader(k, k'.v, t, Ls[t]) {
      TouchedApart(k, intl, Ls, own, k'.v, {LinkPoint(k.F, d, h), s}, t);
    }
    MadeKeptAll(k, k', Ls, s, isDir);
  }

  lemma TouchShape(v: Vol, v': Vol, points: set<int>)
    requires SameOutside(v, v', points)
    ensures |v'.disk| == |v.disk| && v'.last == v.last && v'.root == v.root
  {
  }

  lemma MadeKeptAll(k: Disk, k': Disk, Ls: map<int, Layout>, s: int, isDir: bool)
    requires s !in k.files && (forall t :: t in k.files <==> t in Ls)
    requires k'.files == if isDir then k.files else k.files[s := FileRuns.Closed(s)]
    requires forall t :: t in k.files ==> OnlyHeader(k, k'.v, t, Ls[t])
    ensures FilesKept(k, k', Ls, MadeLs(Ls, s, isDir))
  {
    hide OnlyHeader, EmptyLayout;
  }

  lemma MadeKeys(k: Disk, k': Disk, intl: bool, d: int, s: int, name: seq<byte>, isDir: bool)
    requires Grew(k.v, k.F, k'.v, k'.F, intl, d, NewEntryNode(s, d, name, if isDir then ST_DIR else ST_FILE), isDir)
    requires k'.files == if isDir then k.files else k.files[s := FileRuns.Closed(s)]
    requires (forall t :: t in k.files <==> t in k.F.place && t !in k.F.chains) && s !in k.F.chains && s !in k.files
    ensures forall t :: t in k'.files <==> t in k'.F.place && t !in k'.F.chains
  {
    hide Listing, TreeOK, Upper, NodeAt;
    assert forall t :: t in k'.F.place <==> t in k'.F.place.Keys;
    assert forall t :: t in k'.F.chains <==> t in k'.F.chains.Keys;
  }

  lemma MadeFiles(k: Disk, k': Disk, R: map<int, Layout>, s: int, isDir: bool)
    requires SameFiles(k.v, k'.v, R)
    ensures forall t :: t in R ==> Bytes(k'.v, R[t]) == Bytes(k.v, R[t]) && SameFile(NodeAt(k'.v, t), NodeAt(k.v, t))
  {
    hide Stored, Bytes, SameFile;
  }

  lemma MadeViews(k: Disk, k': Disk, intl: bool, Ls: map<int, Layout>, Ls': map<int, Layout>, own: set<int>, s: int, isDir: bool)
    requires DiskOK(k, intl, Ls, own) && DiskOK(k', intl, Ls', own) && Ls' == MadeLs(Ls, s, isDir) && s !in k.files
    requires k'.files == if isDir then k.files else k.files[s := FileRuns.Closed(s)]
    requires !isDir ==> Bytes(k'.v, EmptyLayout(s)) == []
    requires forall t :: t in k'.files && t in k.files ==>
               t in Ls && t in Ls' && FileRuns.ViewOf(k'.v, Current(k'.v, k'.files[t]), Ls'[t]) == FileRuns.ViewOf(k.v, Current(k.v, k.files[t]), Ls[t])
    requires forall t :: t in k'.files && t !in k.files ==>
               t in Ls' && FileRuns.ViewOf(k'.v, Current(k'.v, k'.files[t]), Ls'[t]) == FileRuns.View(Bytes(k'.v, Ls'[t]), 0, false, false, false)
    ensures FileViews(k', Ls') ==
            if isDir then FileViews(k, Ls) else FileViews(k, Ls)[s := FileRuns.View([], 0, false, false, false)]
  {
    hide DiskOK, Current, FileRuns.ViewOf, Bytes, EmptyLayout;
    FileViewsKeys(k, intl, Ls, own);
    FileViewsKeys(k', intl, Ls', own);
    var m := if isDir then FileViews(k, Ls) else FileViews(k, Ls)[s := FileRuns.View([], 0, false, false, false)];
    forall t ensures (t in FileViews(k', Ls') <==> t in m) && (t in m ==> FileViews(k', Ls')[t] == m[t]) {
    }
  }

  /** The sectors that directories and files could take. */
  ghost function Capacity(k: Disk, Ls: map<int, Layout>): nat {
    |k.v.free| + TreeBlocks(TreeOf(k, Ls))
  }

  lemma MakesIs(k: Disk, intl: bool, Ls: map<int, Layout>, own: set<int>, d: int, name: seq<byte>)
    requires DiskOK(k, intl, Ls, own)
    ensures CanMake(k, intl, d, name) <==> Makes(TreeOf(k, Ls), intl, Capacity(k, Ls), d, name)
  {
    hide DiskOK, TreeOf, CanMake, NoEntry, TreeBlocks;
    CanMakeIs(k, intl, Ls, own, d, name);
    TreeDirs(k, Ls);
  }

  /** A new entry, at the first free sector. */
  lemma MakeNew(k: Disk, intl: bool, Ls: map<int, Layout>, own: set<int>, d: int, name: seq<byte>, isDir: bool)
    requires DiskOK(k, intl, Ls, own) && MayLink(k, intl, d, name) && CanMake(k, intl, d, name)
    ensures VolOK(k.v)
    ensures var s, k', t := FirstFree(k.v), Make(k, intl, d, name, isDir), TreeOf(k, Ls);
            && DiskOK(k', intl, MadeLs(Ls, s, isDir), own) && k'.v.last == k.v.last
            && k'.files == (if isDir then k.files else k.files[s := FileRuns.Closed(s)])
            && d in t.dirs && Unnamed(t, s)
            && TreeOf(k', MadeLs(Ls, s, isDir)) == WithNew(t, d, name, isDir, s)
  {
    hide DiskOK, Linked, Listing, NewName, Make, CanMake, Grew, TreeOf, WithNew, NoEntry, FileViews, NewEntryNode, MayLink, FreeInOrder;
    CanMakeFacts(k, intl, d, name);
    var s := FirstFree(k.v);
    TreeDirs(k, Ls);
    MadeDisk(k, intl, Ls, own, d, name, isDir, s);
    GrewFacts(k, Make(k, intl, d, name, isDir), intl, d, s, name, isDir);
    MadeTree(k, intl, Ls, own, d, s, name, isDir, Make(k, intl, d, name, isDir), MadeLs(Ls, s, isDir));
    FileViewsKeys(k, intl, Ls, own);
  }

  lemma MakeStep(k: Disk, intl: bool, Ls: map<int, Layout>, own: set<int>, d: int, name: seq<byte>, isDir: bool)
    returns (Ls': map<int, Layout>)
    requires DiskOK(k, intl, Ls, own) && MayLink(k, intl, d, name)
    ensures DiskOK(Make(k, intl, d, name, isDir), intl, Ls', own) && Make(k, intl, d, name, isDir).v.last == k.v.last
    ensures Made(TreeOf(k, Ls), intl, Capacity(k, Ls), d, name, isDir, TreeOf(Make(k, intl, d, name, isDir), Ls'))
  {
    hide DiskOK, Make, CanMake, TreeOf, WithNew, Makes, MayLink, Capacity, FreeInOrder, MadeLs, Unnamed;
    MakesIs(k, intl, Ls, own, d, name);
    MakeIs(k, intl, d, name, isDir);
    Ls' := Ls;
    if CanMake(k, intl, d, name) {
      MakeNew(k, intl, Ls, own, d, name, isDir);
      Ls' := MadeLs(Ls, FirstFree(k.v), isDir);
    }
  }

  lemma MadeTree(k: Disk, intl: bool, Ls: map<int, Layout>, own: set<int>, d: int, s: int, name: seq<byte>, isDir: bool, k': Disk,
                 Ls': map<int, Layout>)
    requires DiskOK(k, intl, Ls, own) && d in k.F.chains && s !in k.F.chains && s != d
    requires Grew(k.v, k.F, k'.v, k'.F, intl, d, NewEntryNode(s, d, name, if isDir then ST_DIR else ST_FILE), isDir)
    requires FileViews(k', Ls') ==
             if isDir then FileViews(k, Ls) else FileViews(k, Ls)[s := FileRuns.View([], 0, false, false, false)]
    ensures d in TreeOf(k, Ls).dirs && s !in TreeOf(k, Ls).dirs
    ensures TreeOf(k', Ls') == WithNew(TreeOf(k, Ls), d, name, isDir, s)
  {
    hide DiskOK, Linked, Listing, Upper, Grew, ForestOK, TreeOf, FileViews, NewEntryNode;
    DiskParts(k, intl, Ls, own);
    NothingListed(k.v, k.F, s);
    TreeDirs(k, Ls);
    GrewFacts(k, k', intl, d, s, name, isDir);
    var t := TreeOf(k, Ls);
    var t' := WithNew(t, d, name, isDir, s);
    forall e | e in t'.dirs ensures t'.dirs[e] == Listing(k'.v, k'.F, e) {
    }
    TreeIs(k', Ls', t');
  }

  /* ---- removing ---- */

  /** What is freed by walking the blocks of an entry is what removing it frees. */
  lemma FreedIsOwned(v: Vol, F: Forest, intl: bool, Ls: map<int, Layout>, own: set<int>, s: int)
    requires WholeOK(v, F, intl, Ls, own) && s in F.place && s !in own
    ensures HasPlace(F, s)
    ensures FreeBlocksOf(UnlinkIn(v, F, s), NodeAt(v, s), s, s in F.chains) == RemovedVol(v, F, Ls, s)
  {
    hide Linked, Stored, UnlinkIn, NodeAt, FreeFileBlocks, RealSize, IsEmptyDir, WholeOK;
    EntryFacts(v, F, intl, Ls, own, s);
    FreedOrLeft(v, F, intl, Ls, own, s);
    var w := UnlinkIn(v, F, s);
    if s !in F.chains {
      StoredChain(w, NodeAt(v, s), Ls[s]);
      RemoveFreesRealSize(w, NodeAt(v, s), Ls[s]);
      if Ls[s].data == [] {
        assert w.free + {} == w.free && w.(free := w.free) == w;
      }
    }
  }

  lemma RemovedTree(k: Disk, Ls: map<int, Layout>, s: int, d: int, k': Disk)
    requires s in k.F.place && HasPlace(k.F, s) && d == k.F.place[s].dir && s != d
    requires k'.F.chains.Keys == k.F.chains.Keys - {s}
    requires Listing(k'.v, k'.F, d) == Listing(k.v, k.F, d) - {s}
    requires forall e :: e != d ==> Listing(k'.v, k'.F, e) == Listing(k.v, k.F, e)
    requires FileViews(k', Ls - {s}) == FileViews(k, Ls) - {s}
    ensures d in TreeOf(k, Ls).dirs
    ensures TreeOf(k', Ls - {s}) == WithoutOld(TreeOf(k, Ls), d, s)
  {
    hide Listing, HasPlace, TreeOf, FileViews;
    TreeDirs(k, Ls);
    PlaceInDir(k.F, s);
    TreeIs(k', Ls - {s}, WithoutOld(TreeOf(k, Ls), d, s));
  }

  /** A directory without entries lists nothing. */
  lemma EmptyListsNothing(k: Disk, s: int)
    requires ForestOK(k.F) && s in k.F.chains
    ensures IsEmptyDir(k.F, s) <==> Listing(k.v, k.F, s) == map[]
  {
    hide UpperName;
    var m := Listing(k.v, k.F, s);
    if !IsEmptyDir(k.F, s) {
      var h :| 0 <= h < HT_SIZE && k.F.chains[s][h] != [];
      ChainPlaces(k.F, s, h, 0);
      assert k.F.chains[s][h][0] in m;
    }
    if m != map[] {
      assert exists x :: x in m.Keys;
      var x :| x in m;
      assert HasPlace(k.F, x);
    }
  }

  lemma RemoveApplies(k: Disk, intl: bool, d: int, name: seq<byte>)
    ensures var s := EntryNamed(k.v, k.F, intl, d, name);
            Step(k, intl, Remove(d, name)) ==
            if s in k.F.place && HasPlace(k.F, s) && Removable(k.v, k.F, intl, d, name)
            then Disk(FreeBlocksOf(UnlinkIn(k.v, k.F, s), NodeAt(k.v, s), s, s in k.F.chains), WithoutEntry(k.F, s), k.files - {s})
            else k
  {
    hide HasPlace, EntryNamed, FreeBlocksOf, UnlinkIn, NodeAt, WithoutEntry, Removable;
  }

  /** The volume after entry `s`, a closed file or a directory without entries, is removed. */
  ghost function RemovedDisk(k: Disk, Ls: map<int, Layout>, s: int): Disk
    requires s in k.F.place && HasPlace(k.F, s)
  {
    Disk(RemovedVol(k.v, k.F, RestLs(k, Ls), s), WithoutEntry(k.F, s), k.files - {s})
  }

  lemma RemovedRest(k: Disk, k': Disk, Ls: map<int, Layout>, s: int)
    requires (forall t :: t in k.files <==> t in Ls) && k'.files == k.files - {s} && !IsWriter(k, s)
    ensures RestLs(k', Ls - {s}) == RestLs(k, Ls) - {s}
    ensures forall t :: IsWriter(k', t) <==> IsWriter(k, t)
  {
  }

  /** Neither a directory nor a file on the disk is among the blocks set apart. */
  lemma NotApart(k: Disk, intl: bool, Ls: map<int, Layout>, own: set<int>, s: int)
    requires DiskOK(k, intl, Ls, own) && s in k.F.place && !IsWriter(k, s)
    ensures s !in own + WriterSectors(k, Ls)
  {
    hide DiskOK, Linked, FilesOK, TreeOK;
    DiskParts(k, intl, Ls, own);
    DiskIsWhole(k, intl, Ls, own);
    RestNotApart(k, Ls, own + WriterSectors(k, Ls), s);
  }

  lemma RestNotApart(k: Disk, Ls: map<int, Layout>, own: set<int>, s: int)
    requires FilesOK(k.v, k.F, RestLs(k, Ls), own) && own !! k.F.chains.Keys && !IsWriter(k, s)
    requires (forall t :: t in k.files <==> t in Ls) && (s in k.F.chains || s in k.files)
    ensures s !in own
  {
    hide Stored;
    if s in k.files {
      assert s in RestLs(k, Ls);
    }
  }

  lemma RemovedWhole(k: Disk, intl: bool, Ls: map<int, Layout>, own: set<int>, s: int)
    requires DiskOK(k, intl, Ls, own) && s in k.F.place && (s in k.F.chains ==> IsEmptyDir(k.F, s)) && !IsWriter(k, s)
    requires HasPlace(k.F, s) && NoWriterAt(k, {UnlinkPoint(k.F, s)})
    ensures var k', Ls', d := RemovedDisk(k, Ls, s), Ls - {s}, k.F.place[s].dir;
            && DiskOK(k', intl, Ls', own + LeftBy(RestLs(k, Ls), s)) && k'.v.last == k.v.last
            && k'.F.chains.Keys == k.F.chains.Keys - {s}
            && Listing(k'.v, k'.F, d) == Listing(k.v, k.F, d) - {s}
            && (forall e :: e != d ==> Listing(k'.v, k'.F, e) == Listing(k.v, k.F, e))
            && FileViews(k', Ls') == FileViews(k, Ls) - {s}
            && FreeBlocksOf(UnlinkIn(k.v, k.F, s), NodeAt(k.v, s), s, s in k.F.chains) == k'.v
  {
    hide DiskOK, WholeOK, Linked, Listing, SameFiles, RemovedVol, WithoutEntry, IsEmptyDir, FileRuns.FileOK, Current, UnlinkPoint,
         FreeBlocksOf, HasPlace, OnlyHeader, FileViews, UnlinkIn, NodeAt, LeftBy;
    DiskParts(k, intl, Ls, own);
    DiskIsWhole(k, intl, Ls, own);
    NotApart(k, intl, Ls, own, s);
    var R, W := RestLs(k, Ls), own + WriterSectors(k, Ls);
    var left := LeftBy(R, s);
    var k', Ls' := RemovedDisk(k, Ls, s), Ls - {s};
    RemoveWhole(k.v, k.F, intl, R, W, s);
    FreedIsOwned(k.v, k.F, intl, R, W, s);
    RemovedRest(k, k', Ls, s);
    WithoutEntryKeys(k.F, s);
    RemovedKept(k, intl, Ls, own, s);
    RemovedKeys(k, k', s);
    MadeFiles(k, k', R - {s}, s, false);
    LeftApart(k, intl, Ls, own, s);
    assert W + left == (own + left) + WriterSectors(k, Ls);
    WholeIsDisk(k, k', intl, Ls, Ls', own, own + left);
    RemovedViews(k, k', intl, Ls, own, own + left, s);
  }

  /** A sector that is left without an owner belongs to no other file. */
  lemma LeftApart(k: Disk, intl: bool, Ls: map<int, Layout>, own: set<int>, s: int)
    requires DiskOK(k, intl, Ls, own)
    ensures forall t :: t in Ls - {s} ==> (Ls - {s})[t].own.Keys !! (own + LeftBy(RestLs(k, Ls), s)) - own
  {
    hide DiskOK, Linked, FileRuns.FileOK, Current;
    DiskParts(k, intl, Ls, own);
    if s in k.files {
      PlaceOnDisk(k.v, Current(k.v, k.files[s]), Ls[s]);
    }
  }

  lemma RemovedKeys(k: Disk, k': Disk, s: int)
    requires k'.F.place.Keys == k.F.place.Keys - {s} && k'.F.chains.Keys == k.F.chains.Keys - {s} && k'.files == k.files - {s}
    requires forall t :: t in k.files <==> t in k.F.place && t !in k.F.chains
    ensures forall t :: t in k'.files <==> t in k'.F.place && t !in k'.F.chains
  {
    assert forall t :: t in k'.F.place <==> t in k'.F.place.Keys;
    assert forall t :: t in k'.F.chains <==> t in k'.F.chains.Keys;
  }

  lemma RemovedKept(k: Disk, intl: bool, Ls: map<int, Layout>, own: set<int>, s: int)
    requires DiskOK(k, intl, Ls, own) && s in k.F.place && HasPlace(k.F, s) && NoWriterAt(k, {UnlinkPoint(k.F, s)})
    ensures var k' := RemovedDisk(k, Ls, s);
            FilesKept(k, k', Ls, Ls - {s}) && |k'.v.disk| == |k.v.disk| && k'.v.last == k.v.last
  {
    hide DiskOK, Linked, OnlyHeader, UnlinkIn, UnlinkPoint, WithoutEntry, HasPlace, FileRuns.FileOK, Current, FileRuns.OneOwner, InUse;
    DiskParts(k, intl, Ls, own);
    var k', x := RemovedDisk(k, Ls, s), UnlinkPoint(k.F, s);
    UnlinkTouches(k.v, k.F, s);
    FreeTouches(k.v, UnlinkIn(k.v, k.F, s), {x}, k'.v.free);
    UnlinkPointKnown(k.F, s);
    forall t | t in k.files ensures OnlyHeader(k, k'.v, t, Ls[t]) {
      TouchedApart(k, intl, Ls, own, k'.v, {x}, t);
    }
  }

  lemma FreeTouches(v: Vol, w: Vol, points: set<int>, free: set<int>)
    requires SameOutside(v, w, points)
    ensures SameOutside(v, w.(free := free), points) && |w.disk| == |v.disk| && w.last == v.last
  {
  }

  lemma UnlinkPointKnown(F: Forest, s: int)
    requires ForestOK(F) && s in F.place && HasPlace(F, s)
    ensures UnlinkPoint(F, s) in F.place || UnlinkPoint(F, s) in F.chains
  {
    var p := F.place[s];
    if p.idx > 0 {
      ChainPlaces(F, p.dir, p.bucket, p.idx - 1);
    }
  }

  lemma RemovedViews(k: Disk, k': Disk, intl: bool, Ls: map<int, Layout>, own: set<int>, own': set<int>, s: int)
    requires DiskOK(k, intl, Ls, own) && DiskOK(k', intl, Ls - {s}, own') && k'.files == k.files - {s}
    requires forall t :: t in k'.files && t in k.files ==>
               t in Ls && t in Ls - {s} && FileRuns.ViewOf(k'.v, Current(k'.v, k'.files[t]), (Ls - {s})[t]) == FileRuns.ViewOf(k.v, Current(k.v, k.files[t]), Ls[t])
    ensures FileViews(k', Ls - {s}) == FileViews(k, Ls) - {s}
  {
    hide DiskOK, Current, FileRuns.ViewOf;
    FileViewsKeys(k, intl, Ls, own);
    FileViewsKeys(k', intl, Ls - {s}, own');
    var m, m' := FileViews(k, Ls) - {s}, FileViews(k', Ls - {s});
    forall t ensures (t in m' <==> t in m) && (t in m ==> m'[t] == m[t]) {
    }
  }

  lemma NotInItself(F: Forest, s: int)
    requires s in F.place && HasPlace(F, s)
    ensures F.place[s].dir != s
  {
  }

  /** A closed file has no bytes on the disk exactly if it has none in the tree. */
  lemma EmptyOnDisk(k: Disk, intl: bool, Ls: map<int, Layout>, own: set<int>, s: int)
    requires DiskOK(k, intl, Ls, own) && s in k.files && k.files[s].Closed?
    ensures s in FileViews(k, Ls) && (FileViews(k, Ls)[s].bytes == [] <==> NodeAt(k.v, s).byteSize == 0)
  {
    hide DiskOK, Linked, FileRuns.FileOK, FileRuns.OneOwner;
    DiskParts(k, intl, Ls, own);
    RestsOnDisk(k.v, k.files[s], Ls[s]);
  }

  lemma RemovedIsClosed(k: Disk, intl: bool, d: int, name: seq<byte>)
    requires Allowed(k, intl, Remove(d, name))
    ensures var s := EntryNamed(k.v, k.F, intl, d, name);
            s in k.files && s in k.F.place && HasPlace(k.F, s) && s !in k.F.chains && s != -1 ==>
              k.files[s].Closed? && Removable(k.v, k.F, intl, d, name)
  {
    hide EntryNamed, HasPlace, UnlinkPoint, ReadEntry;
  }

  /** What is left without an owner, on the disk and in the tree. */
  lemma DroppedIs(k: Disk, intl: bool, Ls: map<int, Layout>, own: set<int>, op: VolumeOp)
    requires DiskOK(k, intl, Ls, own) && Allowed(k, intl, op)
    ensures Dropped(k, intl, op) == (if Loses(TreeOf(k, Ls), intl, op) then {EntryNamed(k.v, k.F, intl, op.d, op.name)} else {})
    ensures forall x :: x in Dropped(k, intl, op) ==> 2 <= x <= k.v.last && x !in own && x !in k.F.chains
    ensures op.Remove? && Removable(k.v, k.F, intl, op.d, op.name) ==>
              LeftBy(RestLs(k, Ls), EntryNamed(k.v, k.F, intl, op.d, op.name)) == Dropped(k, intl, op)
  {
    hide DiskOK, Linked, Means, HasPlace, EntryNamed, TreeOf, FileRuns.FileOK, FileRuns.OneOwner, InUse, Current, UnlinkPoint, FileViews,
         IsEmptyDir, NoWriterAt, ReadEntry, WholeOK, Allowed, FreedBy;
    if op.Remove? {
      var s, t := EntryNamed(k.v, k.F, intl, op.d, op.name), TreeOf(k, Ls);
      NameMeans(k, intl, Ls, own, op.d, op.name);
      DiskParts(k, intl, Ls, own);
      TreeDirs(k, Ls);
      FileViewsKeys(k, intl, Ls, own);
      if s in k.files {
        RemovedIsClosed(k, intl, op.d, op.name);
        EmptyOnDisk(k, intl, Ls, own, s);
        DiskIsWhole(k, intl, Ls, own);
        NotApart(k, intl, Ls, own, s);
        FreedOrLeft(k.v, k.F, intl, RestLs(k, Ls), own + WriterSectors(k, Ls), s);
        LinkedEntry(k.v, k.F, intl, s);
      }
    }
  }

  lemma NothingDropped(k: Disk, intl: bool, op: VolumeOp, own: set<int>)
    ensures op.Remove? && !Removable(k.v, k.F, intl, op.d, op.name) ==> Dropped(k, intl, op) == {}
    ensures !op.Remove? ==> Dropped(k, intl, op) == {}
    ensures own + {} == own
  {
    hide EntryNamed;
  }

  lemma RemoveStep(k: Disk, intl: bool, Ls: map<int, Layout>, own: set<int>, d: int, name: seq<byte>)
    returns (Ls': map<int, Layout>)
    requires DiskOK(k, intl, Ls, own) && Allowed(k, intl, Remove(d, name))
    ensures var k' := Step(k, intl, Remove(d, name));
            && DiskOK(k', intl, Ls', own + Dropped(k, intl, Remove(d, name))) && k'.v.last == k.v.last
            && TreeStep(TreeOf(k, Ls), intl, Capacity(k, Ls), Remove(d, name), TreeOf(k', Ls'), [])
  {
    hide DiskOK, Linked, Listing, TreeOf, Means, HasPlace, EntryNamed, FreeBlocksOf, WithoutEntry, RemovedVol, UnlinkIn, NodeAt,
         WithoutOld, Step, ForestOK, FileViews, UnlinkPoint, IsEmptyDir, NoWriterAt, Capacity, FileRuns.FileOK, FileRuns.OneOwner, InUse,
         Current, ReadEntry, Dropped, LeftBy, Loses;
    NameMeans(k, intl, Ls, own, d, name);
    RemoveApplies(k, intl, d, name);
    DroppedIs(k, intl, Ls, own, Remove(d, name));
    NothingDropped(k, intl, Remove(d, name), own);
    Ls' := Ls;
    var s := EntryNamed(k.v, k.F, intl, d, name);
    if s in k.F.place {
      TreeDirs(k, Ls);
      DiskParts(k, intl, Ls, own);
      if s in k.F.chains {
        EmptyListsNothing(k, s);
      }
      if Removable(k.v, k.F, intl, d, name) {
        RemovedWhole(k, intl, Ls, own, s);
        NotInItself(k.F, s);
        RemovedTree(k, Ls, s, d, RemovedDisk(k, Ls, s));
        Ls' := Ls - {s};
      }
    }
  }

  /* ---- renaming ---- */

  lemma RenameApplies(k: Disk, intl: bool, d: int, name: seq<byte>, newDir: int, newName: seq<byte>)
    ensures var s := EntryNamed(k.v, k.F, intl, d, name);
            Step(k, intl, Rename(d, name, newDir, newName)) ==
            if s in k.F.place && HasPlace(k.F, s) && |newName| <= MAX_NAME_LEN && !(d == newDir && name == newName)
               && newDir in Unlink(k.F, s).chains && |Unlink(k.F, s).chains[newDir]| == HT_SIZE
            then Disk(Renamed(k.v, k.F, s, newDir, newName, intl), RenamedForest(k.F, s, newDir, newName, intl), k.files)
            else k
  {
    hide HasPlace, EntryNamed, Unlink, Renamed, RenamedForest;
  }

  lemma UnlinkDirs(F: Forest, s: int)
    requires s in F.place && HasPlace(F, s)
    ensures Unlink(F, s).chains.Keys == F.chains.Keys
  {
    assert F.place[s].dir in F.chains;
  }

  lemma RenamedTree(k: Disk, Ls: map<int, Layout>, s: int, d: int, newDir: int, newName: seq<byte>, k': Disk)
    requires s in k.F.place && HasPlace(k.F, s) && d == k.F.place[s].dir && newDir in k.F.chains
    requires k'.F.chains.Keys == k.F.chains.Keys
    requires forall e :: Listing(k'.v, k'.F, e) == RenamedListing(k.v, k.F, s, newDir, newName, e)
    requires FileViews(k', Ls) == FileViews(k, Ls)
    ensures d in TreeOf(k, Ls).dirs && newDir in TreeOf(k, Ls).dirs
    ensures TreeOf(k', Ls) == WithMoved(TreeOf(k, Ls), d, s, newDir, newName)
  {
    hide Listing, HasPlace, TreeOf, FileViews, Upper;
    TreeDirs(k, Ls);
    PlaceInDir(k.F, s);
    TreeIs(k', Ls, WithMoved(TreeOf(k, Ls), d, s, newDir, newName));
  }

  lemma RenamedDisk(k: Disk, intl: bool, Ls: map<int, Layout>, own: set<int>, s: int, d: int, name: seq<byte>, k': Disk)
    requires DiskOK(k, intl, Ls, own) && s in k.F.place && d in k.F.chains && d != s && |name| <= MAX_NAME_LEN
    requires HasPlace(k.F, s) && d in Unlink(k.F, s).chains && |Unlink(k.F, s).chains[d]| == HT_SIZE
    requires !Taken(k.v, k.F, intl, d, name, s) && NoWriterAt(k, RenamePoints(k.F, s, d, Hash(name, intl)))
    requires k' == Disk(Renamed(k.v, k.F, s, d, name, intl), RenamedForest(k.F, s, d, name, intl), k.files)
    ensures DiskOK(k', intl, Ls, own) && k'.v.last == k.v.last && k'.F.chains.Keys == k.F.chains.Keys
    ensures forall e :: Listing(k'.v, k'.F, e) == RenamedListing(k.v, k.F, s, d, name, e)
    ensures FileViews(k', Ls) == FileViews(k, Ls)
  {
    hide DiskOK, WholeOK, Linked, Listing, RenamedListing, SameFiles, Renamed, RenamedForest, Unlink, Taken, FileRuns.FileOK, Current,
         HasPlace, OnlyHeader, FileViews, RenamePoints, Hash, NoWriterAt, FileRuns.OneOwner, InUse, FilesKept;
    DiskParts(k, intl, Ls, own);
    DiskIsWhole(k, intl, Ls, own);
    var R, W := RestLs(k, Ls), own + WriterSectors(k, Ls);
    RenameWhole(k.v, k.F, intl, R, W, s, d, name);
    RenamedRest(k, k', Ls);
    RenamedKept(k, intl, Ls, own, s, d, name, k');
    RenamedKeys(k, k', intl, s, d, name);
    MadeFiles(k, k', R, s, false);
    WholeIsDisk(k, k', intl, Ls, Ls, own, own);
    RenamedViews(k, k', intl, Ls, own);
  }

  lemma RenamedRest(k: Disk, k': Disk, Ls: map<int, Layout>)
    requires k'.files == k.files
    ensures RestLs(k', Ls) == RestLs(k, Ls) && WriterSectors(k', Ls) == WriterSectors(k, Ls)
    ensures forall t :: IsWriter(k', t) <==> IsWriter(k, t)
  {
  }

  lemma RenamedKept(k: Disk, intl: bool, Ls: map<int, Layout>, own: set<int>, s: int, d: int, name: seq<byte>, k': Disk)
    requires DiskOK(k, intl, Ls, own) && s in k.F.place && HasPlace(k.F, s) && d in k.F.chains
    requires d in Unlink(k.F, s).chains && |Unlink(k.F, s).chains[d]| == HT_SIZE
    requires NoWriterAt(k, RenamePoints(k.F, s, d, Hash(name, intl)))
    requires k'.v == Renamed(k.v, k.F, s, d, name, intl) && k'.files == k.files
    ensures FilesKept(k, k', Ls, Ls) && |k'.v.disk| == |k.v.disk| && k'.v.last == k.v.last
  {
    hide DiskOK, Linked, OnlyHeader, Renamed, Hash, HasPlace, FileRuns.FileOK, Current, FileRuns.OneOwner, InUse, RenamePoints,
         SameOutside, Unlink;
    var points := RenamePoints(k.F, s, d, Hash(name, intl));
    DiskParts(k, intl, Ls, own);
    RenamedTouches(k.v, k.F, s, d, name, intl);
    TouchShape(k.v, k'.v, points);
    RenamePointsKnown(k.F, s, d, Hash(name, intl));
    forall t | t in k.files ensures OnlyHeader(k, k'.v, t, Ls[t]) {
      TouchedApart(k, intl, Ls, own, k'.v, points, t);
    }
  }

  lemma RenamePointsKnown(F: Forest, s: int, d: int, h: nat)
    requires ForestOK(F) && s in F.place && HasPlace(F, s) && d in F.chains && h < HT_SIZE
    requires d in Unlink(F, s).chains && |Unlink(F, s).chains[d]| == HT_SIZE
    ensures forall x :: x in RenamePoints(F, s, d, h) ==> x in F.place || x in F.chains
  {
    hide UnlinkPoint, LinkPoint;
    UnlinkPointKnown(F, s);
    UnlinkForest(F, s);
    LinkPointKnown(Unlink(F, s), d, h);
    PlaceInDir(F, s);
  }

  lemma RenamedKeys(k: Disk, k': Disk, intl: bool, s: int, d: int, name: seq<byte>)
    requires s in k.F.place && HasPlace(k.F, s) && d in Unlink(k.F, s).chains && |Unlink(k.F, s).chains[d]| == HT_SIZE
    requires k'.F == RenamedForest(k.F, s, d, name, intl) && k'.files == k.files
    requires forall t :: t in k.files <==> t in k.F.place && t !in k.F.chains
    ensures forall t :: t in k'.files <==> t in k'.F.place && t !in k'.F.chains
  {
    hide Hash;
    PlaceInDir(k.F, s);
  }

  lemma RenamedViews(k: Disk, k': Disk, intl: bool, Ls: map<int, Layout>, own: set<int>)
    requires DiskOK(k, intl, Ls, own) && DiskOK(k', intl, Ls, own) && k'.files == k.files
    requires forall t :: t in k'.files && t in k.files ==>
               t in Ls && FileRuns.ViewOf(k'.v, Current(k'.v, k'.files[t]), Ls[t]) == FileRuns.ViewOf(k.v, Current(k.v, k.files[t]), Ls[t])
    ensures FileViews(k', Ls) == FileViews(k, Ls)
  {
    hide DiskOK, Current, FileRuns.ViewOf;
    var m, m' := FileViews(k, Ls), FileViews(k', Ls);
    forall t ensures (t in m' <==> t in m) && (t in m ==> m'[t] == m[t]) {
    }
  }

  lemma RenameStep(k: Disk, intl: bool, Ls: map<int, Layout>, own: set<int>, d: int, name: seq<byte>, newDir: int, newName: seq<byte>)
    requires DiskOK(k, intl, Ls, own) && Allowed(k, intl, Rename(d, name, newDir, newName))
    ensures var k' := Step(k, intl, Rename(d, name, newDir, newName));
            && DiskOK(k', intl, Ls, own) && k'.v.last == k.v.last
            && TreeStep(TreeOf(k, Ls), intl, Capacity(k, Ls), Rename(d, name, newDir, newName), TreeOf(k', Ls), [])
  {
    hide DiskOK, Linked, Listing, TreeOf, Means, HasPlace, EntryNamed, Renamed, RenamedForest, WithMoved, Step, FileRuns.FileOK,
         ForestOK, Unlink, Taken, RenamedListing, FileViews, RenamePoints, Hash, NoWriterAt, FileRuns.OneOwner, InUse, Current;
    NameMeans(k, intl, Ls, own, d, name);
    RenameApplies(k, intl, d, name, newDir, newName);
    var s := EntryNamed(k.v, k.F, intl, d, name);
    if s in k.F.place {
      TreeDirs(k, Ls);
      UnlinkDirs(k.F, s);
      DiskParts(k, intl, Ls, own);
      if newDir in k.F.chains && |newName| <= MAX_NAME_LEN && !(d == newDir && name == newName) {
        UnlinkedTable(k.F, s, newDir);
        var k' := Disk(Renamed(k.v, k.F, s, newDir, newName, intl), RenamedForest(k.F, s, newDir, newName, intl), k.files);
        RenamedDisk(k, intl, Ls, own, s, newDir, newName, k');
        RenamedTree(k, Ls, s, d, newDir, newName, k');
      }
    }
  }

  /* ---- files ---- */

  /** A step looks at its own file only, and changes no other. */
  lemma StepLocal(u: FileRuns.World, w: FileRuns.World, op: FileRuns.Op)
    requires VolOK(u.v) && u.v == w.v && op.id in u.files && op.id in w.files && u.files[op.id] == w.files[op.id]
    ensures var a, b := FileRuns.Step(u, op), FileRuns.Step(w, op);
            && a.v == b.v && op.id in a.files && op.id in b.files
            && a.files == u.files[op.id := b.files[op.id]]
            && FileRuns.Output(u, op) == FileRuns.Output(w, op)
  {
    hide Seek, Flush, Read, Write, VolOK, ReadNode, TruncateSpec.Truncate;
    assert u.files[op.id := u.files[op.id]] == u.files;
  }

  lemma NoFile(u: FileRuns.World, op: FileRuns.Op)
    requires VolOK(u.v) && op.id !in u.files
    ensures FileRuns.Step(u, op) == u && FileRuns.Output(u, op) == []
  {
    hide Seek, Flush, Read, Write, VolOK, ReadNode, TruncateSpec.Truncate;
  }

  /** The guard does not depend on links that are out of date. */
  lemma AllowedCurrent(k: Disk, op: FileRuns.Op)
    requires VolOK(k.v) && FileRuns.Allowed(FileRuns.World(k.v, k.files), op)
    ensures FileRuns.Allowed(WorldOf(k), op)
  {
    hide Flush, VolOK, FileShrink.KeepsHandle, Relabel;
    if op.id in k.files && k.files[op.id].Open? {
      var h := k.files[op.id].h;
      RelabelKeeps(h, NodeAt(k.v, h.hdr.headerKey));
    }
  }

  /** A file that stays open stays open in its mode. */
  lemma ModesKept(w: FileRuns.World, Ls: map<int, Layout>, op: FileRuns.Op, b: FileRuns.World, Ls': map<int, Layout>, R: set<int>)
    requires FileRuns.WorldOK(w, Ls, R) && Ls.Keys == w.files.Keys && FileRuns.Refined(w, Ls, op, b, Ls', R)
    requires op.id in w.files && w.files[op.id].Open? && op.id in b.files && b.files[op.id].Open?
    ensures b.files[op.id].h.modeWrite == w.files[op.id].h.modeWrite
  {
    hide Content, Inv, FileRuns.OneOwner, FileRuns.ReservedSame, FileRuns.OthersSame, FileRuns.Resized, FileWrite.Splice;
    var m := FileRuns.Views(w, Ls);
    assert op.id in Ls.Keys && op.id in m;
    assert Ls'.Keys == b.files.Keys && op.id in Ls'.Keys;
    assert FileRuns.Views(b, Ls')[op.id] == FileRuns.ViewStep(m, op)[op.id];
  }

  /** The file after a step, with the links the disk has, is the one a step with those links leaves. */
  lemma StepCurrent(u: FileRuns.World, w: FileRuns.World, op: FileRuns.Op, L: Layout)
    requires VolOK(u.v) && u.v == w.v && op.id in u.files && op.id in w.files && w.files[op.id] == Current(u.v, u.files[op.id])
    requires op.id in FileRuns.Step(w, op).files && FileRuns.FileOK(FileRuns.Step(w, op).v, FileRuns.Step(w, op).files[op.id], L)
    requires w.files[op.id].Open? && FileRuns.Step(w, op).files[op.id].Open? ==>
               FileRuns.Step(w, op).files[op.id].h.modeWrite == w.files[op.id].h.modeWrite
    ensures var a, b := FileRuns.Step(u, op), FileRuns.Step(w, op);
            && a.v == b.v && op.id in a.files
            && a.files == u.files[op.id := a.files[op.id]]
            && Current(b.v, a.files[op.id]) == b.files[op.id]
            && FileRuns.Output(u, op) == FileRuns.Output(w, op)
  {
    hide FileRuns.Step, FileRuns.Output, FileRuns.FileOK, Relabel, NodeAt, VolOK;
    var id, f, b := op.id, u.files[op.id], FileRuns.Step(w, op);
    StepLocal(u, u, op);
    if f.Open? && !f.h.modeWrite {
      RelabelKeeps(f.h, NodeAt(u.v, f.h.hdr.headerKey));
      ReaderCurrent(u, w, op, f.h, L);
    } else {
      StepLocal(u, w, op);
      if b.files[id].Open? && !b.files[id].h.modeWrite {
        WholeIsCurrent(b.v, b.files[id].h, L);
      }
    }
  }

  /** The same for a file that is open for reading only. */
  lemma ReaderCurrent(u: FileRuns.World, w: FileRuns.World, op: FileRuns.Op, h: Handle, L: Layout)
    requires VolOK(u.v) && u.v == w.v && op.id in u.files && op.id in w.files && u.files[op.id] == FileRuns.Open(h) && !h.modeWrite
    requires w.files[op.id] == FileRuns.Open(Relabel(h, NodeAt(u.v, h.hdr.headerKey)))
    requires op.id in FileRuns.Step(w, op).files && FileRuns.FileOK(FileRuns.Step(w, op).v, FileRuns.Step(w, op).files[op.id], L)
    requires FileRuns.Step(w, op).files[op.id].Open? ==> !FileRuns.Step(w, op).files[op.id].h.modeWrite
    ensures var a, b := FileRuns.Step(u, op), FileRuns.Step(w, op);
            && a.v == b.v && op.id in a.files
            && Current(b.v, a.files[op.id]) == b.files[op.id]
            && FileRuns.Output(u, op) == FileRuns.Output(w, op)
  {
    hide FileRuns.Step, FileRuns.Output, FileRuns.FileOK, Relabel, NodeAt, VolOK;
    var id, m := op.id, NodeAt(u.v, h.hdr.headerKey);
    var a, b := FileRuns.Step(u, op), FileRuns.Step(w, op);
    StepRelabeled(u, id, m, op);
    StepLocal(RelabeledWorld(u, id, m), w, op);
    assert RelabeledWorld(a, id, m).files[id] == b.files[id];
    if a.files[id].Open? {
      RelabelTwice(a.files[id].h, m, NodeAt(b.v, id));
      RelabelTwice(a.files[id].h, m, NodeAt(b.v, L.header));
      WholeIsCurrent(b.v, b.files[id].h, L);
    }
  }

  lemma RelabelTwice(h: Handle, m: Node, n: Node)
    ensures Relabel(Relabel(h, m), n) == Relabel(h, n)
    ensures Relabel(h, m).hdr.headerKey == h.hdr.headerKey && Relabel(h, m).modeWrite == h.modeWrite
  {
  }

  lemma RefinedFacts(w: FileRuns.World, Ls: map<int, Layout>, op: FileRuns.Op, b: FileRuns.World, Ls': map<int, Layout>, R: set<int>)
    requires Ls.Keys == w.files.Keys && FileRuns.Refined(w, Ls, op, b, Ls', R) && op.id in w.files
    ensures VolOK(b.v) && FileRuns.OneOwner(b.v, Ls', R) && Ls'.Keys == b.files.Keys == w.files.Keys == Ls.Keys
    ensures forall g :: g in w.files ==>
              && g in Ls && g in Ls' && g in b.files && FileRuns.FileOK(b.v, b.files[g], Ls'[g])
              && Ls'[g].header == Ls[g].header
              && (g != op.id ==> b.files[g] == w.files[g] && Ls'[g] == Ls[g] && FileRuns.SameBlocksOf(w.v, b.v, Ls[g], Ls[g]))
    ensures FileRuns.ReservedSame(w.v, b.v, R)
    ensures FileRuns.WorldOK(b, Ls', R)
    ensures FileRuns.Views(b, Ls') == FileRuns.ViewStep(FileRuns.Views(w, Ls), op)
    ensures FileRuns.Output(w, op) == FileRuns.ViewOutput(FileRuns.Views(w, Ls), op)
  {
    hide FileRuns.OneOwner, FileRuns.FileOK, FileRuns.ViewOf, VolOK, FileRuns.ReservedSame, FileRuns.ViewStep, FileRuns.ViewOutput,
         FileRuns.Output;
    assert forall g :: g in w.files <==> g in Ls.Keys;
    assert forall g :: g in b.files <==> g in Ls'.Keys;
  }

  /** A step on one file of the disk, with the links the disk has: the world `b` with layouts `Ls'`. */
  ghost predicate Stepped(k: Disk, Ls: map<int, Layout>, own: set<int>, op: FileRuns.Op, b: FileRuns.World, Ls': map<int, Layout>) {
    && op.id in k.files && VolOK(k.v)
    && b == FileRuns.Step(WorldOf(k), op) && Ls.Keys == WorldOf(k).files.Keys
    && FileRuns.WorldOK(WorldOf(k), Ls, own + k.F.chains.Keys)
    && FileRuns.Refined(WorldOf(k), Ls, op, b, Ls', own + k.F.chains.Keys)
  }

  /** The world after the step, with the links the disk has. */
  lemma UsedWorld(k: Disk, intl: bool, Ls: map<int, Layout>, own: set<int>, op: FileRuns.Op, b: FileRuns.World, Ls': map<int, Layout>)
    requires Stepped(k, Ls, own, op, b, Ls')
    requires DiskOK(k, intl, Ls, own)
    ensures var k' := UseFile(k, op);
            && k'.v == b.v && k'.F == k.F && WorldOf(k') == b
            && (forall s :: s in k'.files <==> s in k.files)
    ensures FileRuns.Output(FileRuns.World(k.v, k.files), op) == FileRuns.Output(WorldOf(k), op)
  {
    hide DiskOK, Linked, FileRuns.Step, FileRuns.Output, FileRuns.OneOwner, InUse, FileRuns.FileOK, Current, FileRuns.Refined,
         FileRuns.WorldOK, FileRuns.OthersSame, FileRuns.Views, FileRuns.ViewStep, FileRuns.ViewOutput, VolOK, FileRuns.ReservedSame,
         FileRuns.SameBlocksOf, NodeAt, IsNode;
    DiskParts(k, intl, Ls, own);
    var w, u, R, id := WorldOf(k), FileRuns.World(k.v, k.files), own + k.F.chains.Keys, op.id;
    RefinedFacts(w, Ls, op, b, Ls', R);
    ReservedShape(k.v, b.v, R);
    if w.files[id].Open? && b.files[id].Open? {
      ModesKept(w, Ls, op, b, Ls', R);
    }
    StepCurrent(u, w, op, Ls'[id]);
    var k' := UseFile(k, op);
    forall g | g in k'.files ensures Current(k'.v, k'.files[g]) == b.files[g] {
      if g != id {
        OtherCurrent(k, intl, Ls, own, b.v, g);
      }
    }
    WorldIs(k', b);
  }

  lemma WorldIs(k: Disk, b: FileRuns.World)
    requires k.v == b.v && (forall s :: s in k.files <==> s in b.files)
    requires forall s :: s in k.files ==> Current(k.v, k.files[s]) == b.files[s]
    ensures WorldOf(k) == b
  {
    hide Current;
    var m := WorldOf(k).files;
    forall s ensures (s in m.Keys <==> s in b.files.Keys) && (s in m ==> m[s] == b.files[s]) {
      assert s in m <==> s in k.files;
    }
    assert m.Keys == b.files.Keys;
    assert m == b.files;
  }

  lemma ReservedShape(v: Vol, v': Vol, reserved: set<int>)
    requires FileRuns.ReservedSame(v, v', reserved)
    ensures |v'.disk| == |v.disk| && v'.root == v.root && v'.last == v.last
    ensures forall x :: x in reserved ==> NodeAt(v', x) == NodeAt(v, x) && (IsNode(v', x) <==> IsNode(v, x))
  {
  }

  lemma OtherCurrent(k: Disk, intl: bool, Ls: map<int, Layout>, own: set<int>, v': Vol, g: int)
    requires DiskOK(k, intl, Ls, own) && g in k.files && g in Ls && FileRuns.SameBlocksOf(k.v, v', Ls[g], Ls[g])
    requires v'.last == k.v.last && |v'.disk| == |k.v.disk|
    ensures Current(v', k.files[g]) == Current(k.v, k.files[g])
    ensures NodeAt(v', g) == NodeAt(k.v, g) && (IsNode(v', g) <==> IsNode(k.v, g))
  {
    hide DiskOK, Linked, FileRuns.OneOwner, InUse, FileRuns.FileOK;
    DiskParts(k, intl, Ls, own);
    PlaceOnDisk(k.v, Current(k.v, k.files[g]), Ls[g]);
  }

  /** What the disk says about the place of a file is what its newest header says. */
  lemma LinksOnDisk(w: FileRuns.World, L: Layout, id: int)
    requires id in w.files && FileRuns.FileOK(w.v, w.files[id], L)
    ensures LinksIn(w, id) == LinksOf(NodeAt(w.v, L.header))
    ensures IsNode(w.v, L.header) && NodeAt(w.v, L.header).headerKey == L.header && NodeAt(w.v, L.header).secType == ST_FILE
  {
    PlaceOnDisk(w.v, w.files[id], L);
    hide Inv;
  }

  lemma UsedTreeBlock(k: Disk, intl: bool, Ls: map<int, Layout>, own: set<int>, op: FileRuns.Op, b: FileRuns.World, Ls': map<int, Layout>,
                      x: int)
    requires Stepped(k, Ls, own, op, b, Ls') && FileRuns.Allowed(WorldOf(k), op)
    requires x in k.F.place || x in k.F.chains
    requires DiskOK(k, intl, Ls, own)
    ensures SameTreeBlock(k.v, b.v, k.F, x) && x !in b.v.free
  {
    hide DiskOK, Linked, FileRuns.Step, FileRuns.FileOK, Current, FileRuns.Refined, FileRuns.Allowed, FileRuns.Output,
         FileRuns.WorldOK, FileRuns.OthersSame, FileRuns.Views, FileRuns.ViewStep, FileRuns.ViewOutput, VolOK, FileRuns.ReservedSame,
         FileRuns.SameBlocksOf, NodeAt, IsNode, SameTreeBlock, LinksIn;
    var w, R := WorldOf(k), own + k.F.chains.Keys;
    DiskParts(k, intl, Ls, own);
    RefinedFacts(w, Ls, op, b, Ls', R);
    ReservedShape(k.v, b.v, R);
    TreeBlockOnVolume(k.v, k.F, intl, x);
    if x in k.F.chains {
      ChainFree(b.v, Ls', own, k.F, x);
      SameIsSameTree(k.v, b.v, k.F, x);
    } else {
      assert x in w.files;
      PlaceOnDisk(b.v, b.files[x], Ls'[x]);
      if x == op.id {
        DiskWorld(k, intl, Ls, own);
        StepKeepsLinks(w, Ls, R, op, x);
        LinksOnDisk(w, Ls[x], x);
        LinksOnDisk(b, Ls'[x], x);
        FileTreeBlock(k.v, b.v, k.F, x);
      } else {
        OtherCurrent(k, intl, Ls, own, b.v, x);
        SameIsSameTree(k.v, b.v, k.F, x);
      }
    }
  }

  lemma ChainFree(v: Vol, Ls: map<int, Layout>, own: set<int>, F: Forest, x: int)
    requires FileRuns.OneOwner(v, Ls, own + F.chains.Keys) && x in F.chains
    ensures x !in v.free && x in own + F.chains.Keys
  {
  }

  lemma FileTreeBlock(v: Vol, v': Vol, F: Forest, x: int)
    requires x !in F.chains && IsNode(v', x) && LinksOf(NodeAt(v', x)) == LinksOf(NodeAt(v, x))
    requires NodeAt(v', x).headerKey == NodeAt(v, x).headerKey && NodeAt(v', x).secType == NodeAt(v, x).secType
    ensures SameTreeBlock(v, v', F, x)
  {
  }

  lemma DiskWorld(k: Disk, intl: bool, Ls: map<int, Layout>, own: set<int>)
    requires DiskOK(k, intl, Ls, own)
    ensures FileRuns.WorldOK(WorldOf(k), Ls, own + k.F.chains.Keys) && Ls.Keys == WorldOf(k).files.Keys
  {
    hide Linked, FileRuns.OneOwner, FileRuns.FileOK, Current;
  }

  /** An operation on a file does to the files what it should, and nothing to the directories. */
  lemma FileStep(k: Disk, intl: bool, Ls: map<int, Layout>, own: set<int>, op: FileRuns.Op) returns (Ls': map<int, Layout>)
    requires DiskOK(k, intl, Ls, own) && FileRuns.Allowed(FileRuns.World(k.v, k.files), op)
    ensures var k' := UseFile(k, op);
            && DiskOK(k', intl, Ls', own) && k'.v.last == k.v.last && k'.F == k.F
            && (forall e :: Listing(k'.v, k'.F, e) == Listing(k.v, k.F, e))
            && FileViews(k', Ls') == FileRuns.ViewStep(FileViews(k, Ls), op)
            && FileRuns.Output(FileRuns.World(k.v, k.files), op) == FileRuns.ViewOutput(FileViews(k, Ls), op)
  {
    hide DiskOK, Linked, FileRuns.Step, FileRuns.FileOK, Current, FileRuns.Refined, FileRuns.Allowed, FileRuns.Output, Listing,
         FileViews, SameTreeBlock, FileRuns.OneOwner, FileRuns.WorldOK, FileRuns.ViewStep, FileRuns.ViewOutput, FileRuns.Views;
    var w, R := WorldOf(k), own + k.F.chains.Keys;
    DiskParts(k, intl, Ls, own);
    DiskWorld(k, intl, Ls, own);
    FileViewsKeys(k, intl, Ls, own);
    Ls' := Ls;
    if op.id !in k.files {
      NoFile(FileRuns.World(k.v, k.files), op);
      NoView(FileViews(k, Ls), op);
    } else {
      AllowedCurrent(k, op);
      Ls' := FileRuns.StepRefines(w, Ls, R, op);
      var b := FileRuns.Step(w, op);
      UsedWorld(k, intl, Ls, own, op, b, Ls');
      RefinedFacts(w, Ls, op, b, Ls', R);
      forall x | x in k.F.place || x in k.F.chains ensures SameTreeBlock(k.v, b.v, k.F, x) && x !in b.v.free {
        UsedTreeBlock(k, intl, Ls, own, op, b, Ls', x);
      }
      TreeFrame(k.v, b.v, k.F, intl);
      UsedDisk(k, intl, Ls, own, op, b, Ls');
      FileViewsKeys(UseFile(k, op), intl, Ls', own);
    }
  }

  lemma NoView(m: map<int, FileRuns.View>, op: FileRuns.Op)
    requires op.id !in m
    ensures FileRuns.ViewStep(m, op) == m && FileRuns.ViewOutput(m, op) == []
  {
  }

  lemma UsedDisk(k: Disk, intl: bool, Ls: map<int, Layout>, own: set<int>, op: FileRuns.Op, b: FileRuns.World, Ls': map<int, Layout>)
    requires var k' := UseFile(k, op);
             && k'.v == b.v && k'.F == k.F && WorldOf(k') == b && (forall s :: s in k'.files <==> s in k.files)
    requires FileRuns.WorldOK(b, Ls', own + k.F.chains.Keys) && b.v.root == k.v.root
    requires forall g :: g in WorldOf(k).files ==> g in Ls && g in Ls' && Ls'[g].header == Ls[g].header
    requires Linked(b.v, k.F, intl) && forall x :: x in k.F.place || x in k.F.chains ==> x !in b.v.free
    requires DiskOK(k, intl, Ls, own)
    ensures DiskOK(UseFile(k, op), intl, Ls', own)
  {
    hide Linked, FileRuns.WorldOK, UseFile, Current, FileRuns.FileOK, FileRuns.OneOwner;
    DiskParts(k, intl, Ls, own);
    assert forall s :: s in k.files ==> s in WorldOf(k).files;
  }

  lemma UsedTree(k: Disk, Ls: map<int, Layout>, k': Disk, Ls': map<int, Layout>)
    requires k'.F == k.F && forall e :: Listing(k'.v, k'.F, e) == Listing(k.v, k.F, e)
    ensures TreeOf(k', Ls') == TreeOf(k, Ls).(files := FileViews(k', Ls'))
  {
    hide Listing, FileViews, TreeOf;
    TreeDirs(k, Ls);
    TreeIs(k', Ls', TreeOf(k, Ls).(files := FileViews(k', Ls')));
  }

  lemma UseStep(k: Disk, intl: bool, Ls: map<int, Layout>, own: set<int>, op: FileRuns.Op) returns (Ls': map<int, Layout>)
    requires DiskOK(k, intl, Ls, own) && FileRuns.Allowed(FileRuns.World(k.v, k.files), op)
    ensures var k', t := UseFile(k, op), TreeOf(k, Ls);
            && DiskOK(k', intl, Ls', own) && k'.v.last == k.v.last
            && TreeOf(k', Ls') == t.(files := FileRuns.ViewStep(t.files, op))
            && FileRuns.Output(FileRuns.World(k.v, k.files), op) == FileRuns.ViewOutput(t.files, op)
  {
    hide DiskOK, FileRuns.Allowed, FileRuns.Output, Listing, FileViews, FileRuns.ViewStep, FileRuns.ViewOutput, UseFile, TreeOf;
    Ls' := FileStep(k, intl, Ls, own, op);
    TreeDirs(k, Ls);
    UsedTree(k, Ls, UseFile(k, op), Ls');
  }

  /** A file that is there, or none for reading, is opened. */
  lemma OpenOld(k: Disk, intl: bool, Ls: map<int, Layout>, own: set<int>, d: int, name: seq<byte>, r: bool, w: bool)
    returns (Ls': map<int, Layout>)
    requires DiskOK(k, intl, Ls, own) && Allowed(k, intl, OpenNamed(d, name, r, w))
    requires EntryNamed(k.v, k.F, intl, d, name) == -1 ==> !w
    ensures var k' := Step(k, intl, OpenNamed(d, name, r, w));
            && DiskOK(k', intl, Ls', own) && k'.v.last == k.v.last
            && TreeStep(TreeOf(k, Ls), intl, Capacity(k, Ls), OpenNamed(d, name, r, w), TreeOf(k', Ls'), [])
  {
    hide DiskOK, Linked, Listing, TreeOf, Means, HasPlace, EntryNamed, UseFile, FileRuns.ViewStep, FileViews, FileRuns.OneOwner,
         FileRuns.FileOK, InUse, Current, VolOK, ForestOK, TreeStep, Step, Capacity;
    NameMeans(k, intl, Ls, own, d, name);
    DiskParts(k, intl, Ls, own);
    TreeDirs(k, Ls);
    FileViewsKeys(k, intl, Ls, own);
    var s := EntryNamed(k.v, k.F, intl, d, name);
    OpenApplies(k, intl, d, name, r, w);
    Ls' := Ls;
    if s in k.files {
      Ls' := UseStep(k, intl, Ls, own, FileRuns.OpenFile(s, r, w));
    } else {
      NoView(TreeOf(k, Ls).files, FileRuns.OpenFile(s, r, w));
      assert TreeOf(k, Ls).(files := TreeOf(k, Ls).files) == TreeOf(k, Ls);
    }
    OpenedTree(TreeOf(k, Ls), intl, Capacity(k, Ls), d, name, r, w, s, TreeOf(Step(k, intl, OpenNamed(d, name, r, w)), Ls'));
  }

  lemma OpenApplies(k: Disk, intl: bool, d: int, name: seq<byte>, r: bool, w: bool)
    ensures var s := EntryNamed(k.v, k.F, intl, d, name);
            && (CanMake(k, intl, d, name) ==> VolOK(k.v))
            && Step(k, intl, OpenNamed(d, name, r, w)) ==
               if s in k.files then UseFile(k, FileRuns.OpenFile(s, r, w))
               else if s == -1 && w && CanMake(k, intl, d, name) then
                 UseFile(Make(k, intl, d, name, false), FileRuns.OpenFile(FirstFree(k.v), r, w))
               else k
  {
    hide EntryNamed, UseFile, Make, FreeInOrder;
  }

  lemma OpenedTree(t: Tree, intl: bool, total: int, d: int, name: seq<byte>, r: bool, w: bool, s: int, t': Tree)
    requires t' == Opened(t, s, r, w)
    requires if s == -1 then !w && NoEntry(t, intl, d, name) && t' == t else forall x :: Means(t, intl, d, name, x) ==> x == s
    requires s != -1 ==> Means(t, intl, d, name, s)
    ensures TreeStep(t, intl, total, OpenNamed(d, name, r, w), t', [])
  {
    hide Means, FileRuns.ViewStep;
  }

  /** There is none, and one is made and opened, if there is room. */
  lemma OpenNew(k: Disk, intl: bool, Ls: map<int, Layout>, own: set<int>, d: int, name: seq<byte>, r: bool)
    returns (Ls': map<int, Layout>)
    requires DiskOK(k, intl, Ls, own) && Allowed(k, intl, OpenNamed(d, name, r, true))
    requires EntryNamed(k.v, k.F, intl, d, name) == -1
    ensures var k' := Step(k, intl, OpenNamed(d, name, r, true));
            && DiskOK(k', intl, Ls', own) && k'.v.last == k.v.last
            && TreeStep(TreeOf(k, Ls), intl, Capacity(k, Ls), OpenNamed(d, name, r, true), TreeOf(k', Ls'), [])
  {
    hide DiskOK, Linked, Listing, TreeOf, Means, HasPlace, EntryNamed, UseFile, FileRuns.ViewStep, FileViews, FileRuns.OneOwner,
         FileRuns.FileOK, InUse, Current, ForestOK, TreeStep, Step, Capacity, Make, CanMake, MayLink, Makes, FreeInOrder, MadeLs, WithNew,
         Unnamed;
    NameMeans(k, intl, Ls, own, d, name);
    DiskParts(k, intl, Ls, own);
    OpenApplies(k, intl, d, name, r, true);
    MakesIs(k, intl, Ls, own, d, name);
    NotAFile(k, intl, Ls, own, -1);
    var t := TreeOf(k, Ls);
    Ls' := Ls;
    if CanMake(k, intl, d, name) {
      MakeNew(k, intl, Ls, own, d, name, false);
      var s, k1 := FirstFree(k.v), Make(k, intl, d, name, false);
      Ls' := UseStep(k1, intl, MadeLs(Ls, s, false), own, FileRuns.OpenFile(s, r, true));
      MadeOpenTree(t, intl, Capacity(k, Ls), d, name, r, s, TreeOf(UseFile(k1, FileRuns.OpenFile(s, r, true)), Ls'));
    } else {
      NotMade(t, intl, Capacity(k, Ls), d, name, r);
    }
  }

  lemma NotAFile(k: Disk, intl: bool, Ls: map<int, Layout>, own: set<int>, s: int)
    requires DiskOK(k, intl, Ls, own) && s !in k.F.place
    ensures s !in k.files
  {
    hide DiskOK, Linked, FileRuns.OneOwner, FileRuns.FileOK, Current;
    DiskParts(k, intl, Ls, own);
  }

  lemma MadeOpenTree(t: Tree, intl: bool, total: int, d: int, name: seq<byte>, r: bool, s: int, t': Tree)
    requires d in t.dirs && Unnamed(t, s) && t' == Opened(WithNew(t, d, name, false, s), s, r, true)
    requires Makes(t, intl, total, d, name)
    ensures TreeStep(t, intl, total, OpenNamed(d, name, r, true), t', [])
  {
    hide Means, FileRuns.ViewStep, WithNew, Unnamed, TreeBlocks;
  }

  lemma NotMade(t: Tree, intl: bool, total: int, d: int, name: seq<byte>, r: bool)
    requires !Makes(t, intl, total, d, name) && NoEntry(t, intl, d, name)
    ensures TreeStep(t, intl, total, OpenNamed(d, name, r, true), t, [])
  {
    hide Means, FileRuns.ViewStep, TreeBlocks;
  }

  /** When opening by name succeeds, in terms of the tree. */
  lemma OpensInTree(k: Disk, intl: bool, Ls: map<int, Layout>, own: set<int>, d: int, name: seq<byte>, r: bool, w: bool)
    requires DiskOK(k, intl, Ls, own) && d in k.F.chains
    ensures var t := TreeOf(k, Ls);
            FileOpen.Opens(k.v, k.F, intl, d, name, r, w) <==>
              && (r || w)
              && ((exists s :: Means(t, intl, d, name, s) && s in t.files) || (w && Makes(t, intl, Capacity(k, Ls), d, name)))
  {
    hide DiskOK, TreeOf, Means, EntryNamed, Refused, Makes, Capacity, Linked, FileViews;
    NameMeans(k, intl, Ls, own, d, name);
    MakesIs(k, intl, Ls, own, d, name);
    DiskParts(k, intl, Ls, own);
    FileViewsKeys(k, intl, Ls, own);
    TreeDirs(k, Ls);
    if Makes(TreeOf(k, Ls), intl, Capacity(k, Ls), d, name) {
      NoneIfMade(TreeOf(k, Ls), intl, Capacity(k, Ls), d, name);
    }
    LinkedDir(k.v, k.F, intl, d);
  }

  lemma NoneIfMade(t: Tree, intl: bool, total: int, d: int, name: seq<byte>)
    requires Makes(t, intl, total, d, name)
    ensures NoEntry(t, intl, d, name)
  {
    hide Means;
  }

  lemma OpenStep(k: Disk, intl: bool, Ls: map<int, Layout>, own: set<int>, d: int, name: seq<byte>, r: bool, w: bool)
    returns (Ls': map<int, Layout>)
    requires DiskOK(k, intl, Ls, own) && Allowed(k, intl, OpenNamed(d, name, r, w))
    ensures var k' := Step(k, intl, OpenNamed(d, name, r, w));
            && DiskOK(k', intl, Ls', own) && k'.v.last == k.v.last
            && TreeStep(TreeOf(k, Ls), intl, Capacity(k, Ls), OpenNamed(d, name, r, w), TreeOf(k', Ls'), [])
  {
    hide DiskOK, TreeOf, TreeStep, Step, Capacity, Allowed;
    if w && EntryNamed(k.v, k.F, intl, d, name) == -1 {
      Ls' := OpenNew(k, intl, Ls, own, d, name, r);
    } else {
      Ls' := OpenOld(k, intl, Ls, own, d, name, r, w);
    }
  }

  /**
    Every allowed operation takes a whole volume to a whole volume, as the tree says. The
    sectors for directories and files are as many as before, but for a file without bytes
    that is removed.
  */
  lemma StepRefines(k: Disk, intl: bool, Ls: map<int, Layout>, own: set<int>, op: VolumeOp) returns (Ls': map<int, Layout>)
    requires DiskOK(k, intl, Ls, own) && Allowed(k, intl, op)
    ensures DiskOK(Step(k, intl, op), intl, Ls', own + Dropped(k, intl, op)) && Step(k, intl, op).v.last == k.v.last
    ensures forall x :: x in Dropped(k, intl, op) ==> 2 <= x <= k.v.last && x !in own
    ensures TreeStep(TreeOf(k, Ls), intl, Capacity(k, Ls), op, TreeOf(Step(k, intl, op), Ls'), Output(k, op))
    ensures Capacity(Step(k, intl, op), Ls') == TotalAfter(TreeOf(k, Ls), intl, Capacity(k, Ls), op)
  {
    hide DiskOK, TreeOf, TreeStep, Step, Capacity, Allowed, Dropped, Loses;
    Ls' := StepToTree(k, intl, Ls, own, op);
    DroppedIs(k, intl, Ls, own, op);
    CapacityKept(k, Step(k, intl, op), intl, Ls, Ls', own, Dropped(k, intl, op));
  }

  lemma StepToTree(k: Disk, intl: bool, Ls: map<int, Layout>, own: set<int>, op: VolumeOp) returns (Ls': map<int, Layout>)
    requires DiskOK(k, intl, Ls, own) && Allowed(k, intl, op)
    ensures DiskOK(Step(k, intl, op), intl, Ls', own + Dropped(k, intl, op)) && Step(k, intl, op).v.last == k.v.last
    ensures TreeStep(TreeOf(k, Ls), intl, Capacity(k, Ls), op, TreeOf(Step(k, intl, op), Ls'), Output(k, op))
  {
    hide Capacity, DiskOK, TreeOf, Made, Make, EntryNamed, Taken, FileRuns.ViewStep, FileRuns.ViewOutput, FileRuns.Output, UseFile, MayLink,
         FileRuns.Allowed, Dropped, Removable;
    NothingDropped(k, intl, op, own);
    match op
    case MakeFile(d, name) => Ls' := MakeStep(k, intl, Ls, own, d, name, false);
    case MakeDir(d, name) => Ls' := MakeStep(k, intl, Ls, own, d, name, true);
    case Remove(d, name) => Ls' := RemoveStep(k, intl, Ls, own, d, name);
    case Rename(d, name, newDir, newName) =>
      RenameStep(k, intl, Ls, own, d, name, newDir, newName);
      Ls' := Ls;
    case OpenNamed(d, name, r, w) => Ls' := OpenStep(k, intl, Ls, own, d, name, r, w);
    case Use(op) => Ls' := UseStep(k, intl, Ls, own, op);
  }

  /* ---- whole runs ---- */

  ghost function Run(k: Disk, intl: bool, ops: seq<VolumeOp>): Disk
    decreases |ops|
  {
    if ops == [] then k else Run(Step(k, intl, ops[0]), intl, ops[1..])
  }

  ghost function Outputs(k: Disk, intl: bool, ops: seq<VolumeOp>): seq<seq<byte>>
    decreases |ops|
  {
    if ops == [] then [] else [Output(k, ops[0])] + Outputs(Step(k, intl, ops[0]), intl, ops[1..])
  }

  ghost predicate AllAllowed(k: Disk, intl: bool, ops: seq<VolumeOp>)
    decreases |ops|
  {
    ops == [] || (Allowed(k, intl, ops[0]) && AllAllowed(Step(k, intl, ops[0]), intl, ops[1..]))
  }

  /** The sectors that a run leaves without an owner. */
  ghost function AllDropped(k: Disk, intl: bool, ops: seq<VolumeOp>): set<int>
    decreases |ops|
  {
    if ops == [] then {} else Dropped(k, intl, ops[0]) + AllDropped(Step(k, intl, ops[0]), intl, ops[1..])
  }

  /**
    The run takes tree `t` to tree `t'`, and returns `outs`, where there are `total` sectors
    before it and `total'` after it.
  */
  ghost predicate TreeRun(t: Tree, intl: bool, total: int, ops: seq<VolumeOp>, t': Tree, total': int, outs: seq<seq<byte>>)
    decreases |ops|
  {
    if ops == [] then t' == t && total' == total && outs == []
    else
      && outs != []
      && exists t1 :: TreeStep(t, intl, total, ops[0], t1, outs[0])
                      && TreeRun(t1, intl, TotalAfter(t, intl, total, ops[0]), ops[1..], t', total', outs[1..])
  }

  /**
    Over every run of allowed operations, the volume behaves as a tree of names and of files
    with bytes and positions, reads return what the tree has, the chains are whole, and
    every sector keeps exactly one owner, but for the headers of files without bytes that
    are removed.
  */
  lemma {:induction false} RunRefines(k: Disk, intl: bool, Ls: map<int, Layout>, own: set<int>, ops: seq<VolumeOp>)
    returns (Ls': map<int, Layout>)
    requires DiskOK(k, intl, Ls, own) && AllAllowed(k, intl, ops)
    ensures DiskOK(Run(k, intl, ops), intl, Ls', own + AllDropped(k, intl, ops)) && Run(k, intl, ops).v.last == k.v.last
    ensures forall x :: x in AllDropped(k, intl, ops) ==> 2 <= x <= k.v.last && x !in own
    ensures TreeRun(TreeOf(k, Ls), intl, Capacity(k, Ls), ops,
                    TreeOf(Run(k, intl, ops), Ls'), Capacity(Run(k, intl, ops), Ls'), Outputs(k, intl, ops))
    decreases |ops|
  {
    hide DiskOK, TreeOf, Step, Allowed, TreeStep, Output, Capacity, Dropped, TotalAfter;
    if ops == [] {
      Ls' := Ls;
      assert own + {} == own;
    } else {
      var Ls1 := StepRefines(k, intl, Ls, own, ops[0]);
      var k1, own1 := Step(k, intl, ops[0]), own + Dropped(k, intl, ops[0]);
      Ls' := RunRefines(k1, intl, Ls1, own1, ops[1..]);
      assert own1 + AllDropped(k1, intl, ops[1..]) == own + AllDropped(k, intl, ops);
      assert Outputs(k, intl, ops)[1..] == Outputs(k1, intl, ops[1..]);
    }
  }

  /** The sectors that directories and files own. */
  ghost function Used(F: Forest, Ls: map<int, Layout>): set<int> {
    F.chains.Keys + FileRuns.Owned(Ls)
  }

  lemma UsedIsRest(k: Disk, intl: bool, Ls: map<int, Layout>, own: set<int>)
    requires DiskOK(k, intl, Ls, own)
    ensures k.v.free !! Used(k.F, Ls)
    ensures forall x :: x in k.v.free || x in Used(k.F, Ls) <==> 2 <= x <= k.v.last && x !in own
  {
    hide DiskOK, Linked, FileRuns.FileOK, Current, FileRuns.Owned, FileRuns.WorldOK;
    DiskParts(k, intl, Ls, own);
    DiskWorld(k, intl, Ls, own);
    FileRuns.OwnedIsRest(WorldOf(k), Ls, own + k.F.chains.Keys);
    forall d | d in k.F.chains ensures 2 <= d <= k.v.last {
      TreeBlockOnVolume(k.v, k.F, intl, d);
    }
  }

  /** Free, used and lost sectors are together the same before and after, and as many. */
  lemma SameSectors(k: Disk, k': Disk, intl: bool, Ls: map<int, Layout>, Ls': map<int, Layout>, own: set<int>, lost: set<int>)
    requires DiskOK(k, intl, Ls, own) && DiskOK(k', intl, Ls', own + lost) && k'.v.last == k.v.last
    requires forall x :: x in lost ==> 2 <= x <= k.v.last && x !in own
    ensures k'.v.free + Used(k'.F, Ls') + lost == k.v.free + Used(k.F, Ls) && lost !! k'.v.free + Used(k'.F, Ls')
    ensures |k'.v.free| + |Used(k'.F, Ls')| + |lost| == |k.v.free| + |Used(k.F, Ls)|
  {
    hide DiskOK, Used;
    UsedIsRest(k, intl, Ls, own);
    UsedIsRest(k', intl, Ls', own + lost);
    var before, after := k.v.free + Used(k.F, Ls), k'.v.free + Used(k'.F, Ls');
    forall x ensures (x in after + lost <==> x in before) && (x in after ==> x !in lost) {
    }
    assert after + lost == before && lost !! after;
    assert |after + lost| == |after| + |lost|;
    assert |after| == |k'.v.free| + |Used(k'.F, Ls')|;
    assert |before| == |k.v.free| + |Used(k.F, Ls)|;
  }

  /** Directories and files use as many sectors as the tree says. */
  lemma UsedIsTree(k: Disk, intl: bool, Ls: map<int, Layout>, own: set<int>)
    requires DiskOK(k, intl, Ls, own)
    ensures |Used(k.F, Ls)| == TreeBlocks(TreeOf(k, Ls))
  {
    hide DiskOK, TreeOf, FileRuns.WorldOK, BlocksUsed, FileRuns.Owned, FileRuns.Views, FileViews;
    DiskWorld(k, intl, Ls, own);
    OwnedIsUsed(WorldOf(k), Ls, own + k.F.chains.Keys);
    FileViewsKeys(k, intl, Ls, own);
    TreeDirs(k, Ls);
    DirsApart(k, intl, Ls, own);
    assert |k.F.chains.Keys + FileRuns.Owned(Ls)| == |k.F.chains.Keys| + |FileRuns.Owned(Ls)|;
    assert |TreeOf(k, Ls).dirs| == |TreeOf(k, Ls).dirs.Keys|;
  }

  lemma DirsApart(k: Disk, intl: bool, Ls: map<int, Layout>, own: set<int>)
    requires DiskOK(k, intl, Ls, own)
    ensures k.F.chains.Keys !! FileRuns.Owned(Ls)
  {
    hide DiskOK, Linked, FileRuns.FileOK, Current;
    DiskParts(k, intl, Ls, own);
  }

  lemma CapacityKept(k: Disk, k': Disk, intl: bool, Ls: map<int, Layout>, Ls': map<int, Layout>, own: set<int>, lost: set<int>)
    requires DiskOK(k, intl, Ls, own) && DiskOK(k', intl, Ls', own + lost) && k'.v.last == k.v.last
    requires forall x :: x in lost ==> 2 <= x <= k.v.last && x !in own
    ensures Capacity(k', Ls') == Capacity(k, Ls) - |lost|
  {
    hide DiskOK, Used, TreeOf, TreeBlocks;
    SameSectors(k, k', intl, Ls, Ls', own, lost);
    UsedIsTree(k, intl, Ls, own);
    UsedIsTree(k', intl, Ls', own + lost);
  }

  /**
    A run gains no sectors, and loses none but the headers of files without bytes that are
    removed: free, used and lost ones are together the same, and as many are free as the
    tree leaves.
  */
  lemma RunConserves(k: Disk, intl: bool, Ls: map<int, Layout>, own: set<int>, ops: seq<VolumeOp>)
    returns (Ls': map<int, Layout>)
    requires DiskOK(k, intl, Ls, own) && AllAllowed(k, intl, ops)
    ensures var k' := Run(k, intl, ops);
            var lost := AllDropped(k, intl, ops);
            && DiskOK(k', intl, Ls', own + lost)
            && k'.v.free + Used(k'.F, Ls') + lost == k.v.free + Used(k.F, Ls) && lost !! k'.v.free + Used(k'.F, Ls')
            && |k'.v.free| == |k.v.free| + TreeBlocks(TreeOf(k, Ls)) - TreeBlocks(TreeOf(k', Ls')) - |lost|
  {
    hide DiskOK, TreeOf, Run, AllAllowed, TreeRun, Used, Outputs, TreeBlocks, AllDropped;
    Ls' := RunRefines(k, intl, Ls, own, ops);
    SameSectors(k, Run(k, intl, ops), intl, Ls, Ls', own, AllDropped(k, intl, ops));
    CapacityKept(k, Run(k, intl, ops), intl, Ls, Ls', own, AllDropped(k, intl, ops));
  }

  /* ---- from a new volume on ---- */

  /** The root of a new volume lists nothing, and all sectors that are not the volume's own are free. */
  ghost predicate Formatted(v: Vol, own: set<int>) {
    && VolOK(v) && IsNode(v, v.root)
    && NodeAt(v, v.root).secType == ST_ROOT && NodeAt(v, v.root).slots == NoSlots() && NodeAt(v, v.root).highSeq == 0
    && PlainRoot(NodeAt(v, v.root))
    && v.root !in own
    && v.free == set x | 2 <= x <= v.last && x != v.root && x !in own
  }

  function EmptyForest(root: int): Forest {
    Forest(map[root := NoChains()], map[])
  }

  lemma FormattedWhole(v: Vol, intl: bool, own: set<int>)
    requires Formatted(v, own)
    ensures DiskOK(Disk(v, EmptyForest(v.root), map[]), intl, map[], own)
    ensures TreeOf(Disk(v, EmptyForest(v.root), map[]), map[]) == Tree(map[v.root := map[]], map[])
  {
    var k := Disk(v, EmptyForest(v.root), map[]);
    assert Linked(v, k.F, intl);
    assert WorldOf(k).files == map[];
    assert FileRuns.OneOwner(v, map[], own + k.F.chains.Keys);
  }

  /** The empty tree takes one sector. */
  lemma EmptyTreeBlocks(root: int)
    ensures TreeBlocks(Tree(map[root := map[]], map[])) == 1
  {
    assert SizesOf(map[]) == map[];
  }

  /** A volume with an empty root and nothing else on it but the volume's own blocks. */
  function BlankVol(root: int, last: int, own: set<int>): Vol
    requires 2 < root <= last
  {
    var rootNode := Node(T_HEADER, 0, 0, 0, NoSlots(), 0, [], 0, 0, 0, ST_ROOT);
    Vol(root, last,
        seq(last + 1, i => if i == root then Meta(rootNode) else Data(ZeroBuf())),
        set x | 2 <= x <= last && x != root && x !in own)
  }

  /** There are formatted volumes of every size, with the root anywhere. */
  lemma BlankIsFormatted(root: int, last: int, own: set<int>)
    requires 2 < root <= last && root !in own
    ensures Formatted(BlankVol(root, last, own), own)
  {
  }

  /**
    Every volume that is reached from a newly formatted one by allowed operations is whole,
    and what it holds and returns is what the operations make of an empty tree.
  */
  lemma ReachableIsWhole(v: Vol, intl: bool, own: set<int>, ops: seq<VolumeOp>) returns (Ls': map<int, Layout>)
    requires Formatted(v, own) && AllAllowed(Disk(v, EmptyForest(v.root), map[]), intl, ops)
    ensures var k := Disk(v, EmptyForest(v.root), map[]);
            var k' := Run(k, intl, ops);
            && DiskOK(k', intl, Ls', own + AllDropped(k, intl, ops))
            && TreeRun(Tree(map[v.root := map[]], map[]), intl, |v.free| + 1, ops,
                       TreeOf(k', Ls'), |k'.v.free| + TreeBlocks(TreeOf(k', Ls')), Outputs(k, intl, ops))
  {
    hide DiskOK, TreeOf, Run, AllAllowed, TreeRun, Formatted, Outputs, TreeBlocks, AllDropped;
    FormattedWhole(v, intl, own);
    EmptyTreeBlocks(v.root);
    Ls' := RunRefines(Disk(v, EmptyForest(v.root), map[]), intl, map[], own, ops);
  }
}
