/** Drive paths and uuids: resolving a path by walking the tree, and printing
    the path of an item from its ancestors, backup devices included. */
module DrivePaths {
  import opened Basics
  import opened PathText

  datatype Folder = Folder(uuid: string, name: string, parent: string, depth: nat)

  datatype File = File(uuid: string, plain: string, ftype: string, parent: string)

  datatype Device = Device(uuid: string, name: string)

  /** `depth` orders folders below their parents; a folder at the top has the
      empty parent. */
  datatype Drive = Drive(
    folders: seq<Folder>,
    files: seq<File>,
    devices: seq<Device>,
    root: string,
    isWorkspace: bool)

  datatype Expect = ExpectFile | ExpectFolder | ExpectAny

  datatype Resolved = Resolved(uuid: string, isFolder: bool)

  function FileName(f: File): string {
    DisplayName(f.plain, f.ftype)
  }

  // ---- listings ----

  function FindFolder(folders: seq<Folder>, parent: string, name: string): (f: Option<Folder>)
    ensures f.Some? ==> f.value in folders && f.value.parent == parent && f.value.name == name
    ensures f.None? ==> forall g | g in folders :: !(g.parent == parent && g.name == name)
  {
    if folders == [] then None
    else if folders[0].parent == parent && folders[0].name == name then Some(folders[0])
    else FindFolder(folders[1..], parent, name)
  }

  function FindFile(files: seq<File>, parent: string, name: string): (f: Option<File>)
    ensures f.Some? ==> f.value in files && f.value.parent == parent && FileName(f.value) == name
    ensures f.None? ==> forall g | g in files :: !(g.parent == parent && FileName(g) == name)
  {
    if files == [] then None
    else if files[0].parent == parent && FileName(files[0]) == name then Some(files[0])
    else FindFile(files[1..], parent, name)
  }

  function FolderMeta(folders: seq<Folder>, uuid: string): (f: Option<Folder>)
    ensures f.Some? ==> f.value in folders && f.value.uuid == uuid
    ensures f.None? ==> forall g | g in folders :: g.uuid != uuid
  {
    if folders == [] then None
    else if folders[0].uuid == uuid then Some(folders[0])
    else FolderMeta(folders[1..], uuid)
  }

  function FileMeta(files: seq<File>, uuid: string): (f: Option<File>)
    ensures f.Some? ==> f.value in files && f.value.uuid == uuid
    ensures f.None? ==> forall g | g in files :: g.uuid != uuid
  {
    if files == [] then None
    else if files[0].uuid == uuid then Some(files[0])
    else FileMeta(files[1..], uuid)
  }

  function LowerAscii(c: char): char {
    if 'A' <= c <= 'Z' then (c as int + 32) as char else c
  }

  predicate EqIgnoreCase(a: string, b: string) {
    |a| == |b| && forall i | 0 <= i < |a| :: LowerAscii(a[i]) == LowerAscii(b[i])
  }

  function DeviceByUuid(devices: seq<Device>, uuid: string): (d: Option<Device>)
    ensures d.Some? ==> d.value in devices && d.value.uuid == uuid
    ensures d.None? ==> forall e | e in devices :: e.uuid != uuid
  {
    if devices == [] then None
    else if devices[0].uuid == uuid then Some(devices[0])
    else DeviceByUuid(devices[1..], uuid)
  }

  function NamedDevices(devices: seq<Device>, name: string): (r: seq<Device>)
    ensures forall d :: d in r <==> d in devices && EqIgnoreCase(d.name, name)
  {
    if devices == [] then []
    else (if EqIgnoreCase(devices[0].name, name) then [devices[0]] else []) + NamedDevices(devices[1..], name)
  }

  /** Equal but for the case of the letters A to Z. */
  predicate SameLetter(a: char, b: char) {
    || a == b
    || ('A' <= a <= 'Z' && b as int == a as int + 32)
    || ('A' <= b <= 'Z' && a as int == b as int + 32)
  }

  lemma CaseAside(a: string, b: string)
    ensures EqIgnoreCase(a, b) <==> |a| == |b| && forall i | 0 <= i < |a| :: SameLetter(a[i], b[i])
  {
    forall i | 0 <= i < |a| && |a| == |b|
      ensures LowerAscii(a[i]) == LowerAscii(b[i]) <==> SameLetter(a[i], b[i])
    {
    }
  }

  /** An exact uuid wins; otherwise exactly one name must match, letter case
      aside. */
  function ResolveDevice(devices: seq<Device>, needle: string): Option<Device> {
    match DeviceByUuid(devices, needle)
    case Some(d) => Some(d)
    case None =>
      var named := NamedDevices(devices, needle);
      if |named| == 1 then Some(named[0]) else None
  }

  /** Device `i` is the only one of that name. */
  ghost predicate OnlyNamed(devices: seq<Device>, name: string, i: nat) {
    && i < |devices| && EqIgnoreCase(devices[i].name, name)
    && forall j | 0 <= j < |devices| && j != i :: !EqIgnoreCase(devices[j].name, name)
  }

  lemma {:induction false} NoneNamed(devices: seq<Device>, name: string)
    requires forall i | 0 <= i < |devices| :: !EqIgnoreCase(devices[i].name, name)
    ensures NamedDevices(devices, name) == []
  {
    if devices != [] {
      NoneNamed(devices[1..], name);
    }
  }

  lemma {:induction false} OneNamed(devices: seq<Device>, name: string, i: nat)
    requires OnlyNamed(devices, name, i)
    ensures NamedDevices(devices, name) == [devices[i]]
  {
    if i == 0 {
      NoneNamed(devices[1..], name);
    } else {
      OneNamed(devices[1..], name, i - 1);
    }
  }

  lemma {:induction false} OneOnly(devices: seq<Device>, name: string) returns (i: nat)
    requires |NamedDevices(devices, name)| == 1
    ensures OnlyNamed(devices, name, i)
  {
    var rest := devices[1..];
    if EqIgnoreCase(devices[0].name, name) {
      i := 0;
      forall j | 0 < j < |devices|
        ensures !EqIgnoreCase(devices[j].name, name)
      {
        assert rest[j - 1] == devices[j] && NamedDevices(rest, name) == [];
        assert devices[j] in rest;
      }
    } else {
      var k := OneOnly(rest, name);
      i := k + 1;
      assert devices[i] == rest[k];
      forall j | 0 < j < |devices| && j != i
        ensures !EqIgnoreCase(devices[j].name, name)
      {
        assert devices[j] == rest[j - 1];
      }
    }
  }

  /** A device is found by its uuid, or if there is none of that uuid by its
      name if it is the only one of that name; otherwise none is. */
  lemma ResolveDeviceIs(devices: seq<Device>, needle: string, device: Device)
    ensures ResolveDevice(devices, needle) == Some(device) <==>
              if exists e :: e in devices && e.uuid == needle then DeviceByUuid(devices, needle) == Some(device)
              else exists i: nat :: OnlyNamed(devices, needle, i) && devices[i] == device
  {
    if forall e | e in devices :: e.uuid != needle {
      if |NamedDevices(devices, needle)| == 1 {
        var i := OneOnly(devices, needle);
        OneNamed(devices, needle, i);
      }
      forall i: nat | OnlyNamed(devices, needle, i)
        ensures NamedDevices(devices, needle) == [devices[i]]
      {
        OneNamed(devices, needle, i);
      }
    }
  }

  // ---- resolving ----

  /** Where folder names lead. */
  function WalkFolders(d: Drive, from: string, names: seq<string>): Option<string>
    decreases |names|
  {
    if names == [] then Some(from)
    else match FindFolder(d.folders, from, names[0])
         case Some(f) => WalkFolders(d, f.uuid, names[1..])
         case None => None
  }

  /** Folders first; a file only as the last component. `None` is an error. */
  function Walk(d: Drive, from: string, comps: seq<string>, want: Expect): Option<Resolved>
    decreases |comps|
  {
    if comps == [] then
      if want == ExpectFile then None else Some(Resolved(from, true))
    else
      match FindFolder(d.folders, from, comps[0])
      case Some(f) =>
        if |comps| > 1 then Walk(d, f.uuid, comps[1..], want)
        else if want == ExpectFile then None
        else Some(Resolved(f.uuid, true))
      case None =>
        if |comps| == 1 && want != ExpectFolder then
          match FindFile(d.files, from, comps[0])
          case Some(f) => Some(Resolved(f.uuid, false))
          case None => None
        else None
  }

  /** What a path means: a folder if every name leads on and a folder is wanted,
      or any item; a file if the names in front lead to a folder that has a file
      and no folder of the last name, and a file or any item is wanted; nothing
      else. */
  ghost predicate NamesFolder(d: Drive, from: string, comps: seq<string>, want: Expect, uuid: string) {
    want != ExpectFile && WalkFolders(d, from, comps) == Some(uuid)
  }

  ghost predicate NamesFile(d: Drive, from: string, comps: seq<string>, want: Expect, uuid: string) {
    && want != ExpectFolder && comps != []
    && var front, last := comps[..|comps| - 1], comps[|comps| - 1];
    && WalkFolders(d, from, front).Some?
    && var folder := WalkFolders(d, from, front).value;
    && (forall f | f in d.folders :: !(f.parent == folder && f.name == last))
    && FindFile(d.files, folder, last).Some? && FindFile(d.files, folder, last).value.uuid == uuid
  }

  lemma {:induction false} WalkIs(d: Drive, from: string, comps: seq<string>, want: Expect)
    ensures forall uuid :: Walk(d, from, comps, want) == Some(Resolved(uuid, true)) <==> NamesFolder(d, from, comps, want, uuid)
    ensures forall uuid :: Walk(d, from, comps, want) == Some(Resolved(uuid, false)) <==> NamesFile(d, from, comps, want, uuid)
    decreases |comps|
  {
    if comps != [] {
      var folder := FindFolder(d.folders, from, comps[0]);
      if |comps| == 1 {
        assert comps[..0] == [] && comps[1..] == [];
        assert folder.Some? ==> WalkFolders(d, folder.value.uuid, comps[1..]) == Some(folder.value.uuid);
        assert WalkFolders(d, from, comps) == if folder.Some? then Some(folder.value.uuid) else None;
      } else if folder.Some? {
        WalkIs(d, folder.value.uuid, comps[1..], want);
        FileBehindFolder(d, from, comps, want);
      } else {
        assert comps[..|comps| - 1][0] == comps[0];
      }
    }
  }

  lemma FileBehindFolder(d: Drive, from: string, comps: seq<string>, want: Expect)
    requires |comps| > 1 && FindFolder(d.folders, from, comps[0]).Some?
    ensures var next := FindFolder(d.folders, from, comps[0]).value.uuid;
            forall uuid :: NamesFile(d, from, comps, want, uuid) <==> NamesFile(d, next, comps[1..], want, uuid)
  {
    var rest := comps[1..];
    assert comps[..|comps| - 1][0] == comps[0];
    assert comps[..|comps| - 1][1..] == rest[..|rest| - 1] && comps[|comps| - 1] == rest[|rest| - 1];
  }

  method WalkComponents(d: Drive, root: string, comps: seq<string>, want: Expect) returns (r: Option<Resolved>)
    ensures forall uuid :: r == Some(Resolved(uuid, true)) <==> NamesFolder(d, root, comps, want, uuid)
    ensures forall uuid :: r == Some(Resolved(uuid, false)) <==> NamesFile(d, root, comps, want, uuid)
    ensures r == Walk(d, root, comps, want)
  {
    WalkIs(d, root, comps, want);
    if comps == [] {
      if want == ExpectFile {
        return None;
      }
      return Some(Resolved(root, true));
    }
    var last := |comps| - 1;
    var current := root;
    assert comps[0..] == comps;
    for i := 0 to |comps|
      invariant i < |comps| && Walk(d, root, comps, want) == Walk(d, current, comps[i..], want)
    {
      var folder := FindFolder(d.folders, current, comps[i]);
      assert comps[i..][1..] == comps[i + 1..];
      if folder.Some? {
        current := folder.value.uuid;
        if i == last {
          if want == ExpectFile {
            return None;
          }
          return Some(Resolved(current, true));
        }
        continue;
      }
      if i == last && want != ExpectFolder {
        var file := FindFile(d.files, current, comps[i]);
        if file.Some? {
          return Some(Resolved(file.value.uuid, false));
        }
      }
      return None;
    }
    return None;
  }

  function ResolveNamespaced(d: Drive, comps: seq<string>, want: Expect): Option<Resolved> {
    if comps == [] then None
    else if comps[0] == "drive" then Walk(d, d.root, comps[1..], want)
    else if comps[0] == "backups" then
      if |comps| < 2 || d.isWorkspace then None
      else match ResolveDevice(d.devices, comps[1])
           case Some(device) => Walk(d, device.uuid, comps[2..], want)
           case None => None
    else None
  }

  function ResolvePath(d: Drive, path: string, want: Expect): Option<Resolved> {
    if "//" <= path then ResolveNamespaced(d, Components(path[2..]), want)
    else Walk(d, d.root, Components(path), want)
  }

  // ---- printing ----

  /** The ancestors as the server lists them: the folder first, the top last. */
  function Chain(d: Drive, f: Folder): (chain: seq<Folder>)
    ensures chain != [] && chain[0] == f
    decreases f.depth
  {
    match FolderMeta(d.folders, f.parent)
    case Some(p) => if p.depth < f.depth then [f] + Chain(d, p) else [f]
    case None => [f]
  }

  /** Names from the top of the chain down. */
  function NamesOf(chain: seq<Folder>): seq<string> {
    if chain == [] then [] else NamesOf(chain[1..]) + [chain[0].name]
  }

  function WithoutRoot(chain: seq<Folder>, root: string): seq<Folder> {
    if chain == [] then []
    else (if chain[0].uuid == root then [] else [chain[0]]) + WithoutRoot(chain[1..], root)
  }

  function FolderPath(chain: seq<Folder>, root: string): string {
    var names := NamesOf(WithoutRoot(chain, root));
    if names == [] then "/" else SlashText(names)
  }

  /** Index of the first entry that is a backup device. */
  function DeviceAt(chain: seq<Folder>, devices: seq<Device>): (i: Option<nat>)
    ensures i.Some? ==> i.value < |chain| && DeviceByUuid(devices, chain[i.value].uuid).Some?
    ensures i.None? ==> forall k | 0 <= k < |chain| :: DeviceByUuid(devices, chain[k].uuid).None?
  {
    if chain == [] then None
    else if DeviceByUuid(devices, chain[0].uuid).Some? then Some(0)
    else match DeviceAt(chain[1..], devices)
         case Some(i) => Some(i + 1)
         case None => None
  }

  /** The loop that writes a path under a device. */
  method BackupsPath(device: string, names: seq<string>) returns (path: string)
    ensures path == "//backups/" + device + SlashText(names)
  {
    path := "//backups/" + device;
    for i := 0 to |names|
      invariant path == "//backups/" + device + SlashText(names[..i])
    {
      assert names[..i + 1][..i] == names[..i];
      assert path + "/" + names[i] == "//backups/" + device + (SlashText(names[..i]) + "/" + names[i]);
      path := path + "/";
      path := path + names[i];
    }
    assert names[..|names|] == names;
  }

  function DeviceIn(d: Drive, chain: seq<Folder>): Option<nat> {
    if d.isWorkspace then None else DeviceAt(chain, d.devices)
  }

  function DirPath(d: Drive, chain: seq<Folder>): string {
    match DeviceIn(d, chain)
    case Some(i) =>
      "//backups/" + DeviceByUuid(d.devices, chain[i].uuid).value.name + SlashText(NamesOf(chain[..i]))
    case None => FolderPath(chain, d.root)
  }

  function FileIn(dir: string, name: string): string {
    if dir == "/" then "/" + name else dir + "/" + name
  }

  /** `path_from_id`: a folder is tried first, then a file. */
  function PathFromId(d: Drive, uuid: string): Option<(string, bool)> {
    match FolderMeta(d.folders, uuid)
    case Some(f) => Some((if uuid == d.root then "/" else DirPath(d, Chain(d, f)), true))
    case None =>
      match FileMeta(d.files, uuid)
      case None => None
      case Some(f) =>
        var dir := if f.parent == "" || f.parent == d.root then "/"
                   else match FolderMeta(d.folders, f.parent)
                        case Some(p) => DirPath(d, Chain(d, p))
                        case None => "/";
        Some((FileIn(dir, FileName(f)), false))
  }

  // ---- the trees on which this round-trips ----

  ghost predicate FoldersFine(d: Drive) {
    && (forall f, g | f in d.folders && g in d.folders && f.uuid == g.uuid :: f == g)
    && (forall f, g | f in d.folders && g in d.folders && f.parent == g.parent != "" && f.name == g.name :: f == g)
    && (forall f | f in d.folders ::
          && f.uuid != ""
          && (f.uuid != d.root ==> IsName(f.name))
          && (f.parent != "" ==> exists p :: p in d.folders && p.uuid == f.parent && p.depth < f.depth))
    && (exists r :: r in d.folders && r.uuid == d.root && r.parent == "")
  }

  /** File names are names, unique among the files and folders beside them. */
  ghost predicate FilesFine(d: Drive) {
    && (forall f, g | f in d.files && g in d.files && f.uuid == g.uuid :: f == g)
    && (forall f, g | f in d.files && g in d.files && f.parent == g.parent && FileName(f) == FileName(g) :: f == g)
    && (forall f | f in d.files ::
          && IsName(FileName(f))
          && (exists p :: p in d.folders && p.uuid == f.parent)
          && (forall g | g in d.folders :: g.uuid != f.uuid && !(g.parent == f.parent && g.name == FileName(f))))
  }

  /** Devices are folders by the same name, and no name could mean two. */
  ghost predicate DevicesFine(d: Drive) {
    && (forall i, j | 0 <= i < j < |d.devices| ::
          d.devices[i].uuid != d.devices[j].uuid && !EqIgnoreCase(d.devices[i].name, d.devices[j].name))
    && (forall a, b | a in d.devices && b in d.devices && a.name == b.uuid :: a == b)
    && (forall a | a in d.devices ::
          IsName(a.name) && a.uuid != d.root && exists f :: f in d.folders && f.uuid == a.uuid)
  }

  ghost predicate Fine(d: Drive) {
    FoldersFine(d) && FilesFine(d) && DevicesFine(d)
  }

  /** The folder lies under the root, or under a backup device of a personal
      account. */
  ghost predicate Reachable(d: Drive, f: Folder) {
    var chain := Chain(d, f);
    DeviceIn(d, chain).Some? || chain[|chain| - 1].uuid == d.root
  }

  // ---- walking back ----

  lemma {:induction false} WalkFoldersSnoc(d: Drive, from: string, names: seq<string>, name: string)
    requires WalkFolders(d, from, names).Some?
    ensures WalkFolders(d, from, names + [name])
         == match FindFolder(d.folders, WalkFolders(d, from, names).value, name)
            case Some(f) => Some(f.uuid)
            case None => None
    decreases |names|
  {
    if names == [] {
      assert [name][1..] == [];
    } else {
      assert (names + [name])[1..] == names[1..] + [name];
      WalkFoldersSnoc(d, FindFolder(d.folders, from, names[0]).value.uuid, names[1..], name);
    }
  }

  /** A walk is a walk through folders and one last step. */
  lemma {:induction false} WalkLast(d: Drive, from: string, names: seq<string>, name: string, want: Expect)
    requires WalkFolders(d, from, names).Some?
    ensures Walk(d, from, names + [name], want) == Walk(d, WalkFolders(d, from, names).value, [name], want)
    decreases |names|
  {
    if names == [] {
      assert [] + [name] == [name];
    } else {
      assert (names + [name])[1..] == names[1..] + [name];
      WalkLast(d, FindFolder(d.folders, from, names[0]).value.uuid, names[1..], name, want);
    }
  }

  lemma FoundChild(d: Drive, f: Folder)
    requires FoldersFine(d) && f in d.folders && f.parent != ""
    ensures FindFolder(d.folders, f.parent, f.name) == Some(f)
  {
  }

  lemma NamesBelow(chain: seq<Folder>, f: Folder, above: seq<Folder>, i: nat)
    requires chain == [f] + above && 0 < i < |chain|
    ensures chain[i] == above[i - 1] && NamesOf(chain[..i]) == NamesOf(above[..i - 1]) + [f.name]
  {
    assert chain[..i][1..] == above[..i - 1];
  }

  /** From any ancestor the names below it lead back to the folder. */
  lemma {:induction false} WalkBack(d: Drive, f: Folder, i: nat)
    requires FoldersFine(d) && f in d.folders && i < |Chain(d, f)|
    ensures WalkFolders(d, Chain(d, f)[i].uuid, NamesOf(Chain(d, f)[..i])) == Some(f.uuid)
    decreases f.depth
  {
    if i > 0 {
      var p := FolderMeta(d.folders, f.parent).value;
      var above := Chain(d, p);
      NamesBelow(Chain(d, f), f, above, i);
      WalkBack(d, p, i - 1);
      FoundChild(d, f);
      WalkFoldersSnoc(d, above[i - 1].uuid, NamesOf(above[..i - 1]), f.name);
    }
  }

  lemma {:induction false} ChainMembers(d: Drive, f: Folder)
    requires FoldersFine(d) && f in d.folders
    ensures forall k | 0 <= k < |Chain(d, f)| :: Chain(d, f)[k] in d.folders
    ensures forall k | 0 <= k < |Chain(d, f)| - 1 :: Chain(d, f)[k].uuid != d.root
    ensures forall k | 0 < k < |Chain(d, f)| :: Chain(d, f)[k].depth < f.depth
    decreases f.depth
  {
    match FolderMeta(d.folders, f.parent)
    case Some(p) =>
      if p.depth < f.depth {
        ChainMembers(d, p);
      }
    case None =>
  }

  lemma {:induction false} NamesAreNames(chain: seq<Folder>)
    requires forall k | 0 <= k < |chain| :: IsName(chain[k].name)
    ensures AreNames(NamesOf(chain)) && |NamesOf(chain)| == |chain|
  {
    if chain != [] {
      NamesAreNames(chain[1..]);
    }
  }

  lemma {:induction false} WithoutRootIsFront(chain: seq<Folder>, root: string)
    requires chain != [] && chain[|chain| - 1].uuid == root
    requires forall k | 0 <= k < |chain| - 1 :: chain[k].uuid != root
    ensures WithoutRoot(chain, root) == chain[..|chain| - 1]
    decreases |chain|
  {
    if |chain| > 1 {
      WithoutRootIsFront(chain[1..], root);
      assert chain[..|chain| - 1] == [chain[0]] + chain[1..][..|chain| - 2];
    }
  }

  /** The printed path of a folder as components, and where they start. */
  lemma DirPathParts(d: Drive, f: Folder) returns (top: string, names: seq<string>)
    requires Fine(d) && f in d.folders && Reachable(d, f)
    ensures AreNames(names) && WalkFolders(d, top, names) == Some(f.uuid)
    ensures var chain := Chain(d, f);
            match DeviceIn(d, chain)
            case Some(i) =>
              && !d.isWorkspace && top == chain[i].uuid && names == NamesOf(chain[..i])
              && DeviceByUuid(d.devices, top).Some?
              && DirPath(d, chain) == "//backups/" + DeviceByUuid(d.devices, top).value.name + SlashText(names)
            case None =>
              && top == d.root && (names == [] <==> f.uuid == d.root)
              && DirPath(d, chain) == if names == [] then "/" else SlashText(names)
  {
    var chain := Chain(d, f);
    ChainMembers(d, f);
    var i := match DeviceIn(d, chain) case Some(i) => i case None => |chain| - 1;
    top, names := chain[i].uuid, NamesOf(chain[..i]);
    WalkBack(d, f, i);
    NamesAreNames(chain[..i]);
    if DeviceIn(d, chain).None? {
      WithoutRootIsFront(chain, d.root);
    }
  }

  lemma {:induction false} SlashTextCons(name: string, names: seq<string>)
    ensures SlashText([name] + names) == "/" + name + SlashText(names)
    decreases |names|
  {
    if names == [] {
      assert [name][..0] == [];
    } else {
      var front, last := names[..|names| - 1], names[|names| - 1];
      assert ([name] + names)[..|names|] == [name] + front;
      SlashTextCons(name, front);
    }
  }

  lemma SlashTextSnoc(names: seq<string>, name: string)
    ensures SlashText(names + [name]) == SlashText(names) + "/" + name
  {
    assert (names + [name])[..|names|] == names;
  }

  /** Without ambiguity a device's own name finds it and nothing else. */
  lemma OneDevice(devices: seq<Device>, a: Device)
    requires a in devices
    requires forall i, j | 0 <= i < j < |devices| :: !EqIgnoreCase(devices[i].name, devices[j].name)
    ensures NamedDevices(devices, a.name) == [a]
  {
    var i :| 0 <= i < |devices| && devices[i] == a;
    forall j | 0 <= j < |devices| && j != i
      ensures !EqIgnoreCase(devices[j].name, a.name)
    {
      if j < i {
        assert !EqIgnoreCase(devices[j].name, devices[i].name);
      } else {
        assert !EqIgnoreCase(devices[i].name, devices[j].name);
      }
    }
    OneNamed(devices, a.name, i);
  }

  lemma OneSlashInFront(names: seq<string>)
    requires AreNames(names) && names != []
    ensures !("//" <= SlashText(names))
  {
    var tail := names[1..];
    assert names == [names[0]] + tail;
    SlashTextCons(names[0], tail);
    assert SlashText(names)[1] == names[0][0];
  }

  lemma RootedText(names: seq<string>)
    requires AreNames(names) && names != []
    ensures !("//" <= SlashText(names)) && Components(SlashText(names)) == names
  {
    OneSlashInFront(names);
    RootedComponents(SlashText(names), names);
  }

  lemma DropEscape(device: string, text: string)
    ensures var path := "//backups/" + device + text;
            "//" <= path && path[2..] == "backups" + ("/" + device + text)
  {
    assert "//backups/" == "//" + "backups" + "/";
  }

  lemma BackupsText(names: seq<string>)
    requires AreNames(names)
    ensures Components("backups" + SlashText(names)) == ["backups"] + names
  {
    ComponentsOfText("backups", names);
    NameIsComponent("backups");
  }

  lemma DeviceText(device: string, names: seq<string>)
    requires IsName(device) && AreNames(names)
    ensures var path := "//backups/" + device + SlashText(names);
            "//" <= path && Components(path[2..]) == ["backups"] + ([device] + names)
  {
    DropEscape(device, SlashText(names));
    SlashTextCons(device, names);
    BackupsText([device] + names);
  }

  /** Reading a path under the root. */
  lemma ResolveRooted(d: Drive, names: seq<string>, want: Expect)
    requires AreNames(names) && names != []
    ensures ResolvePath(d, SlashText(names), want) == Walk(d, d.root, names, want)
  {
    RootedText(names);
  }

  lemma ResolveNamedDevice(d: Drive, device: Device, names: seq<string>, want: Expect)
    requires DevicesFine(d) && !d.isWorkspace && device in d.devices
    ensures ResolveNamespaced(d, ["backups"] + ([device.name] + names), want) == Walk(d, device.uuid, names, want)
  {
    var comps := ["backups"] + ([device.name] + names);
    assert comps[2..] == names && comps[0] == "backups" && comps[1] == device.name;
    assert comps[0] != "drive" by {
      assert |"drive"| == 5 && |"backups"| == 7;
    }
    OneDevice(d.devices, device);
    match DeviceByUuid(d.devices, device.name)
    case Some(b) => assert b == device;
    case None =>
  }

  /** Reading a path under a device. */
  lemma ResolveUnderDevice(d: Drive, device: Device, names: seq<string>, want: Expect)
    requires DevicesFine(d) && !d.isWorkspace && device in d.devices && AreNames(names)
    ensures ResolvePath(d, "//backups/" + device.name + SlashText(names), want) == Walk(d, device.uuid, names, want)
  {
    DeviceText(device.name, names);
    ResolveNamedDevice(d, device, names, want);
  }

  lemma {:induction false} WalkIsWalkFolders(d: Drive, from: string, names: seq<string>, want: Expect)
    requires WalkFolders(d, from, names).Some? && want != ExpectFile
    ensures Walk(d, from, names, want) == Some(Resolved(WalkFolders(d, from, names).value, true))
    decreases |names|
  {
    if names != [] {
      WalkIsWalkFolders(d, FindFolder(d.folders, from, names[0]).value.uuid, names[1..], want);
    }
  }

  /** What an escape reads like. */
  lemma EscapeText(first: string, names: seq<string>)
    requires IsName(first) && AreNames(names)
    ensures "//" <= "//" + first + SlashText(names)
    ensures Components(("//" + first + SlashText(names))[2..]) == [first] + names
  {
    var path := "//" + first + SlashText(names);
    assert path[2..] == first + SlashText(names);
    ComponentsOfText(first, names);
    NameIsComponent(first);
  }

  /** `//drive` is the root under another name, for a path of any length. */
  lemma DriveIsRoot(d: Drive, names: seq<string>, want: Expect)
    requires AreNames(names)
    ensures ResolvePath(d, "//" + "drive" + SlashText(names), want) == Walk(d, d.root, names, want)
  {
    EscapeText("drive", names);
    assert (["drive"] + names)[1..] == names;
  }

  /** Any other escape is an error, and so are backups in a workspace or without
      a device, or with one that is not found. */
  lemma BadEscapes(d: Drive, first: string, names: seq<string>, want: Expect)
    requires IsName(first) && AreNames(names) && first != "drive"
    requires first != "backups" || d.isWorkspace || names == [] || ResolveDevice(d.devices, names[0]).None?
    ensures ResolvePath(d, "//" + first + SlashText(names), want) == None == ResolvePath(d, "//", want)
  {
    assert "//"[2..] == "";
    EscapeText(first, names);
    assert names != [] ==> ([first] + names)[1] == names[0];
  }

  /** An id has a path unless it is neither a folder's nor a file's. */
  lemma UnknownIds(d: Drive, uuid: string)
    ensures PathFromId(d, uuid).None? <==>
              (forall f | f in d.folders :: f.uuid != uuid) && (forall f | f in d.files :: f.uuid != uuid)
    ensures PathFromId(d, uuid).Some? ==> (PathFromId(d, uuid).value.1 <==> exists f :: f in d.folders && f.uuid == uuid)
  {
  }

  /** Folders round-trip: the path printed for a reachable folder's uuid
      resolves to that uuid, whether any item or a folder is asked for. */
  lemma FolderRoundTrip(d: Drive, f: Folder, want: Expect)
    requires Fine(d) && f in d.folders && Reachable(d, f) && want != ExpectFile
    ensures PathFromId(d, f.uuid).Some? && PathFromId(d, f.uuid).value.1
    ensures ResolvePath(d, PathFromId(d, f.uuid).value.0, want) == Some(Resolved(f.uuid, true))
  {
    var path := PathFromId(d, f.uuid).value.0;
    if f.uuid == d.root {
      assert Components("/") == [];
    } else {
      var top, names := DirPathParts(d, f);
      if DeviceIn(d, Chain(d, f)).Some? {
        ResolveUnderDevice(d, DeviceByUuid(d.devices, top).value, names, want);
      } else {
        ResolveRooted(d, names, want);
      }
      WalkIsWalkFolders(d, top, names, want);
    }
  }

  lemma RootNotUnderDevice(d: Drive, p: Folder)
    requires Fine(d) && p in d.folders
    ensures p.uuid == d.root ==> DeviceIn(d, Chain(d, p)).None?
  {
    if p.uuid == d.root {
      assert Chain(d, p) == [p];
    }
  }

  lemma FilePrinted(d: Drive, f: File, p: Folder)
    requires Fine(d) && f in d.files && p in d.folders && p.uuid == f.parent && Reachable(d, p)
    ensures PathFromId(d, f.uuid) == Some((FileIn(DirPath(d, Chain(d, p)), FileName(f)), false))
  {
    assert FolderMeta(d.folders, f.uuid).None? && FileMeta(d.files, f.uuid) == Some(f);
    assert FolderMeta(d.folders, p.uuid) == Some(p);
    RootNotUnderDevice(d, p);
    var _, _ := DirPathParts(d, p);
  }

  lemma NotSlash(names: seq<string>)
    requires AreNames(names) && names != []
    ensures SlashText(names) != "/"
  {
    assert SlashText(names)[|SlashText(names)| - 1] == names[|names| - 1][|names[|names| - 1]| - 1];
  }

  lemma FileUnderRoot(names: seq<string>, name: string)
    requires AreNames(names)
    ensures FileIn(if names == [] then "/" else SlashText(names), name) == SlashText(names + [name])
  {
    SlashTextSnoc(names, name);
    if names != [] {
      NotSlash(names);
    }
  }

  lemma AppendName(device: string, text: string, name: string)
    ensures "//backups/" + device + text != "/"
    ensures ("//backups/" + device + text) + "/" + name == "//backups/" + device + (text + "/" + name)
  {
  }

  lemma FileUnderDevice(device: string, names: seq<string>, name: string)
    ensures FileIn("//backups/" + device + SlashText(names), name)
         == "//backups/" + device + SlashText(names + [name])
  {
    SlashTextSnoc(names, name);
    AppendName(device, SlashText(names), name);
  }

  /** The printed path of a file: its name after that of its folder. */
  lemma FilePathParts(d: Drive, f: File, p: Folder) returns (top: string, names: seq<string>)
    requires Fine(d) && f in d.files && p in d.folders && p.uuid == f.parent && Reachable(d, p)
    ensures AreNames(names) && WalkFolders(d, top, names) == Some(p.uuid)
    ensures PathFromId(d, f.uuid).Some? && !PathFromId(d, f.uuid).value.1
    ensures var path, all := PathFromId(d, f.uuid).value.0, SlashText(names + [FileName(f)]);
            if DeviceIn(d, Chain(d, p)).Some? then
              && !d.isWorkspace && DeviceByUuid(d.devices, top).Some?
              && path == "//backups/" + DeviceByUuid(d.devices, top).value.name + all
            else
              top == d.root && path == all
  {
    FilePrinted(d, f, p);
    top, names := DirPathParts(d, p);
    if DeviceIn(d, Chain(d, p)).Some? {
      FileUnderDevice(DeviceByUuid(d.devices, top).value.name, names, FileName(f));
    } else {
      FileUnderRoot(names, FileName(f));
    }
  }

  lemma FoundFile(d: Drive, f: File, want: Expect)
    requires FilesFine(d) && f in d.files && want != ExpectFolder
    ensures Walk(d, f.parent, [FileName(f)], want) == Some(Resolved(f.uuid, false))
  {
  }

  /** Files round-trip likewise. */
  lemma FileRoundTrip(d: Drive, f: File, p: Folder, want: Expect)
    requires Fine(d) && f in d.files && p in d.folders && p.uuid == f.parent && Reachable(d, p)
    requires want != ExpectFolder
    ensures PathFromId(d, f.uuid).Some? && !PathFromId(d, f.uuid).value.1
    ensures ResolvePath(d, PathFromId(d, f.uuid).value.0, want) == Some(Resolved(f.uuid, false))
  {
    var top, names := FilePathParts(d, f, p);
    var all := names + [FileName(f)];
    if DeviceIn(d, Chain(d, p)).Some? {
      ResolveUnderDevice(d, DeviceByUuid(d.devices, top).value, all, want);
    } else {
      ResolveRooted(d, all, want);
    }
    WalkLast(d, top, names, FileName(f), want);
    FoundFile(d, f, want);
  }
}
