/**
 * Unpacking onto a disk, in two sweeps: directories first, then files. A directory or a file
 * can be made only in a directory that is there, and the program stops at a file it cannot make.
 */
module ArchiveDisk {
  import opened Archive
  import opened MachineInt

  /** Directories and files by their paths, which are compared as they are written. */
  datatype FileSystem = FileSystem(dirs: set<Text>, files: map<Text, Text>)

  datatype Outcome = Stopped | Done(fs: FileSystem)

  /** `mkdir`, whose failure is ignored */
  function Mkdir(fs: FileSystem, p: Text): FileSystem {
    if Parent(p) in fs.dirs && p !in fs.dirs && p !in fs.files then fs.(dirs := fs.dirs + {p}) else fs
  }

  /** `fopen (…, "wb")` and writing */
  function Create(fs: FileSystem, p: Text, content: Text): Outcome {
    if Parent(p) in fs.dirs && p !in fs.dirs then Done(fs.(files := fs.files[p := content])) else Stopped
  }

  function MadeDirs(fs: FileSystem, paths: seq<Text>): FileSystem
    decreases |paths|
  {
    if paths == [] then fs else MadeDirs(Mkdir(fs, paths[0]), paths[1..])
  }

  function MadeFiles(fs: FileSystem, files: seq<NewFile>): Outcome
    decreases |files|
  {
    if files == [] then Done(fs)
    else match Create(fs, files[0].path, files[0].content) case Stopped => Stopped case Done(g) => MadeFiles(g, files[1..])
  }

  /** Both sweeps of `splite_file`. */
  function Unpacked(fs: FileSystem, outpath: Text, records: seq<Record>): Outcome {
    MadeFiles(MadeDirs(fs, DirsOf(outpath, records)), FilesOf(outpath, records))
  }

  // ----- the tree as it should be -----

  /** The directories and the files of a tree whose root is at `t`, by their own names. */
  function TreeDirs(t: Text, f: Forest): set<Text>
    decreases f
  {
    match f
    case Empty => {}
    case File(_, _, next) => TreeDirs(t, next)
    case Dir(name, kids, next) =>
      (if Hidden(name) then {} else {Below(t, name)} + TreeDirs(Below(t, name), kids)) + TreeDirs(t, next)
    case Other(_, next) => TreeDirs(t, next)
  }

  function TreeFiles(t: Text, f: Forest): map<Text, Text>
    decreases f
  {
    match f
    case Empty => map[]
    case File(name, content, next) => (if Hidden(name) then map[] else map[Below(t, name) := content]) + TreeFiles(t, next)
    case Dir(name, kids, next) => (if Hidden(name) then map[] else TreeFiles(Below(t, name), kids)) + TreeFiles(t, next)
    case Other(_, next) => TreeFiles(t, next)
  }

  function Plus(fs: FileSystem, t: Text, f: Forest): FileSystem {
    FileSystem(fs.dirs + TreeDirs(t, f), fs.files + TreeFiles(t, f))
  }

  /** No name that is packed has a backslash in it. */
  predicate Plain(f: Forest) {
    match f
    case Empty => true
    case File(name, _, next) => (Hidden(name) || 0x5C !in name) && Plain(next)
    case Dir(name, kids, next) => (Hidden(name) || (0x5C !in name && Plain(kids))) && Plain(next)
    case Other(_, next) => Plain(next)
  }

  function Names(f: Forest): set<Text> {
    match f
    case Empty => {}
    case File(name, _, next) => {name} + Names(next)
    case Dir(name, _, next) => {name} + Names(next)
    case Other(name, next) => {name} + Names(next)
  }

  /** No directory has two entries of the same name. */
  predicate Distinct(f: Forest) {
    match f
    case Empty => true
    case File(name, _, next) => name !in Names(next) && Distinct(next)
    case Dir(name, kids, next) => name !in Names(next) && Distinct(kids) && Distinct(next)
    case Other(_, next) => Distinct(next)
  }

  predicate Under(path: Text, dir: Text) { dir + [SLASH] <= path }

  /** Nothing is below `t` yet. */
  predicate Untouched(fs: FileSystem, t: Text) {
    (forall p :: p in fs.dirs ==> !Under(p, t)) && (forall p :: p in fs.files ==> !Under(p, t))
  }

  lemma UnderBelow(p: Text, t: Text, name: Text)
    ensures Under(Below(t, name), t)
    ensures Under(p, Below(t, name)) ==> Under(p, t)
  {
    assert Below(t, name)[..|t| + 1] == t + [SLASH];
  }

  // ----- where every packed path goes, and what stays as it was -----

  /** The first name on the path from `t` to something below it. */
  function Component(p: Text, t: Text): Text
    requires Under(p, t)
  {
    FirstName(p[|t| + 1..])
  }

  function FirstName(p: Text): Text { if p == [] || p[0] == SLASH then [] else [p[0]] + FirstName(p[1..]) }

  lemma {:induction false} FirstNameIs(name: Text, rest: Text)
    requires SLASH !in name && (rest == [] || rest[0] == SLASH)
    ensures FirstName(name + rest) == name
  {
    if name == [] {
      assert name + rest == rest;
    } else {
      assert (name + rest)[1..] == name[1..] + rest;
      FirstNameIs(name[1..], rest);
    }
  }

  lemma ComponentIs(p: Text, t: Text, name: Text)
    requires SLASH !in name && (p == Below(t, name) || Under(p, Below(t, name)))
    ensures Under(p, t) && Component(p, t) == name
  {
    UnderBelow(p, t, name);
    var rest := p[|t| + 1 + |name|..];
    assert p[|t| + 1..] == name + rest;
    FirstNameIs(name, rest);
  }

  predicate Inside(p: Text, t: Text, names: set<Text>) { Under(p, t) && Component(p, t) in names }

  /** Everything in the tree is below its root, in an entry of that name. */
  lemma {:induction false} TreeIsInside(t: Text, f: Forest)
    requires Named(f)
    ensures forall p :: p in TreeDirs(t, f) || p in TreeFiles(t, f) ==> Inside(p, t, Names(f))
    decreases f
  {
    match f {
      case Empty =>
      case File(name, content, next) =>
        TreeIsInside(t, next);
        ComponentIs(Below(t, name), t, name);
      case Dir(name, kids, next) =>
        TreeIsInside(t, next);
        TreeIsInside(Below(t, name), kids);
        ComponentIs(Below(t, name), t, name);
        forall p | p in TreeDirs(Below(t, name), kids) || p in TreeFiles(Below(t, name), kids) ensures Inside(p, t, Names(f)) {
          ComponentIs(p, t, name);
        }
      case Other(_, next) => TreeIsInside(t, next);
    }
    hide Component, Below;
  }

  /** With distinct names no path is both a file and a directory. */
  lemma {:induction false} TreeIsApart(t: Text, f: Forest)
    requires Named(f) && Distinct(f)
    ensures forall p :: p in TreeFiles(t, f) ==> p !in TreeDirs(t, f)
    decreases f
  {
    match f {
      case Empty =>
      case File(name, content, next) =>
        TreeIsApart(t, next);
        TreeIsInside(t, next);
        ComponentIs(Below(t, name), t, name);
      case Dir(name, kids, next) =>
        TreeIsApart(t, next);
        TreeIsInside(t, next);
        TreeIsApart(Below(t, name), kids);
        TreeIsInside(Below(t, name), kids);
        DirIsApart(t, name, kids);
      case Other(_, next) => TreeIsApart(t, next);
    }
    hide Component, Below, Under;
  }

  lemma DirIsApart(t: Text, name: Text, kids: Forest)
    requires Named(kids) && SLASH !in name
    ensures Below(t, name) !in TreeFiles(Below(t, name), kids)
    ensures Inside(Below(t, name), t, {name})
    ensures forall p :: p in TreeDirs(Below(t, name), kids) || p in TreeFiles(Below(t, name), kids) ==> Inside(p, t, {name})
  {
    ComponentIs(Below(t, name), t, name);
    TreeIsInside(Below(t, name), kids);
    forall p | p in TreeDirs(Below(t, name), kids) || p in TreeFiles(Below(t, name), kids) ensures Inside(p, t, {name}) {
      ComponentIs(p, t, name);
    }
    hide Component, TreeFiles, TreeDirs;
  }

  // ----- when it comes out right -----

  function DirsOfOne(outpath: Text, r: Record): seq<Text> { if r.DirRecord? then [Target(outpath, r.path)] else [] }

  function FilesOfOne(outpath: Text, r: Record): seq<NewFile> {
    if r.FileRecord? then [NewFile(Target(outpath, r.path), r.content)] else []
  }

  lemma {:induction false} DirsOfConcat(outpath: Text, a: seq<Record>, b: seq<Record>)
    ensures DirsOf(outpath, a + b) == DirsOf(outpath, a) + DirsOf(outpath, b)
    decreases |a|
  {
    if a == [] {
      assert a + b == b;
    } else {
      assert (a + b)[1..] == a[1..] + b && (a + b)[0] == a[0];
      DirsOfConcat(outpath, a[1..], b);
      assert DirsOf(outpath, a) == DirsOfOne(outpath, a[0]) + DirsOf(outpath, a[1..]);
      assert DirsOf(outpath, a + b) == DirsOfOne(outpath, a[0]) + DirsOf(outpath, a[1..] + b);
      hide DirsOf, DirsOfOne;
    }
  }

  lemma {:induction false} FilesOfConcat(outpath: Text, a: seq<Record>, b: seq<Record>)
    ensures FilesOf(outpath, a + b) == FilesOf(outpath, a) + FilesOf(outpath, b)
    decreases |a|
  {
    if a == [] {
      assert a + b == b;
    } else {
      assert (a + b)[1..] == a[1..] + b && (a + b)[0] == a[0];
      FilesOfConcat(outpath, a[1..], b);
      assert FilesOf(outpath, a) == FilesOfOne(outpath, a[0]) + FilesOf(outpath, a[1..]);
      assert FilesOf(outpath, a + b) == FilesOfOne(outpath, a[0]) + FilesOf(outpath, a[1..] + b);
      hide FilesOf, FilesOfOne;
    }
  }

  lemma OneRecordMakes(outpath: Text, r: Record)
    ensures DirsOf(outpath, [r]) == if r.DirRecord? then [Target(outpath, r.path)] else []
    ensures FilesOf(outpath, [r]) == if r.FileRecord? then [NewFile(Target(outpath, r.path), r.content)] else []
  {
    assert [r][1..] == [];
    hide Target;
  }

  lemma {:induction false} MadeDirsConcat(fs: FileSystem, a: seq<Text>, b: seq<Text>)
    ensures MadeDirs(fs, a + b) == MadeDirs(MadeDirs(fs, a), b)
    decreases |a|
  {
    hide Mkdir;
    if a == [] {
      assert a + b == b;
    } else {
      assert (a + b)[1..] == a[1..] + b && (a + b)[0] == a[0];
      MadeDirsConcat(Mkdir(fs, a[0]), a[1..], b);
    }
  }

  lemma {:induction false} MadeFilesConcat(fs: FileSystem, a: seq<NewFile>, b: seq<NewFile>)
    ensures MadeFiles(fs, a + b) == match MadeFiles(fs, a) case Stopped => Stopped case Done(g) => MadeFiles(g, b)
    decreases |a|
  {
    hide Create;
    if a == [] {
      assert a + b == b;
    } else {
      assert (a + b)[1..] == a[1..] + b && (a + b)[0] == a[0];
      if Create(fs, a[0].path, a[0].content).Done? {
        MadeFilesConcat(Create(fs, a[0].path, a[0].content).fs, a[1..], b);
      }
    }
  }

  /** A name without backslash keeps its place. */
  lemma TargetOfBelow(outpath: Text, dir: Text, name: Text)
    requires BACKSLASH !in name
    ensures Target(outpath, Below(dir, name)) == Below(Target(outpath, dir), name)
  {
    var p, q := outpath + [SLASH] + Below(dir, name), outpath + [SLASH] + dir;
    assert p == q + [SLASH] + name;
    assert |Target(outpath, Below(dir, name))| == |Below(Target(outpath, dir), name)|;
  }

  /** No file is in the way of anything below `t`. */
  predicate Clear(fs: FileSystem, t: Text) { forall p :: p in fs.files ==> !Under(p, t) }

  lemma ClearBelow(fs: FileSystem, t: Text, name: Text)
    requires Clear(fs, t)
    ensures Clear(fs, Below(t, name)) && Below(t, name) !in fs.files
  {
    forall p | p in fs.files ensures !Under(p, Below(t, name)) {
      UnderBelow(p, t, name);
    }
    UnderBelow(Below(t, name), t, name);
  }

  lemma MkdirBelow(fs: FileSystem, t: Text, name: Text)
    requires t in fs.dirs && Clear(fs, t) && SLASH !in name
    ensures Mkdir(fs, Below(t, name)) == fs.(dirs := fs.dirs + {Below(t, name)})
  {
    ParentOfBelow(t, name);
    ClearBelow(fs, t, name);
    hide Below, Parent;
    if Below(t, name) in fs.dirs {
      assert fs.dirs + {Below(t, name)} == fs.dirs;
    }
  }

  /** The first sweep makes the directories of the tree. */
  lemma {:induction false} DirsAreMade(fs: FileSystem, outpath: Text, dir: Text, f: Forest, t: Text)
    requires t == Target(outpath, dir) && t in fs.dirs && Clear(fs, t) && Named(f) && Plain(f)
    ensures MadeDirs(fs, DirsOf(outpath, Records(dir, f))) == fs.(dirs := fs.dirs + TreeDirs(t, f))
    decreases f, 0
  {
    hide Target, Below, Mkdir, Clear;
    match f {
      case Empty =>
      case File(name, content, next) =>
        DirsAreMade(fs, outpath, dir, next, t);
        if Hidden(name) {
          assert Records(dir, f) == Records(dir, next);
        } else {
          DirsOfConcat(outpath, [FileRecord(Below(dir, name), content)], Records(dir, next));
          OneRecordMakes(outpath, FileRecord(Below(dir, name), content));
          assert [] + DirsOf(outpath, Records(dir, next)) == DirsOf(outpath, Records(dir, next));
        }
      case Dir(name, kids, next) =>
        if Hidden(name) {
          DirsAreMade(fs, outpath, dir, next, t);
          assert Records(dir, f) == Records(dir, next);
          assert {} + TreeDirs(t, next) == TreeDirs(t, next);
        } else {
          DirIsMade(fs, outpath, dir, name, kids, t);
          var g := fs.(dirs := fs.dirs + ({Below(t, name)} + TreeDirs(Below(t, name), kids)));
          assert Clear(g, t) by { SameFiles(fs, g, t); }
          DirsAreMade(g, outpath, dir, next, t);
          var head := [DirRecord(Below(dir, name))] + Records(Below(dir, name), kids);
          DirsOfConcat(outpath, head, Records(dir, next));
          MadeDirsConcat(fs, DirsOf(outpath, head), DirsOf(outpath, Records(dir, next)));
        }
      case Other(_, next) => DirsAreMade(fs, outpath, dir, next, t);
    }
  }

  lemma SameFiles(fs: FileSystem, g: FileSystem, t: Text)
    requires Clear(fs, t) && g.files == fs.files
    ensures Clear(g, t)
  {
  }

  lemma {:induction false} DirIsMade(fs: FileSystem, outpath: Text, dir: Text, name: Text, kids: Forest, t: Text)
    requires t == Target(outpath, dir) && t in fs.dirs && Clear(fs, t) && SLASH !in name && BACKSLASH !in name && Named(kids) && Plain(kids)
    ensures MadeDirs(fs, DirsOf(outpath, [DirRecord(Below(dir, name))] + Records(Below(dir, name), kids)))
         == fs.(dirs := fs.dirs + ({Below(t, name)} + TreeDirs(Below(t, name), kids)))
    decreases kids, 1
  {
    hide Target, Below, Mkdir, Clear, Records, TreeDirs;
    var r, inner := DirRecord(Below(dir, name)), Records(Below(dir, name), kids);
    TargetOfBelow(outpath, dir, name);
    MkdirBelow(fs, t, name);
    ClearBelow(fs, t, name);
    var g := fs.(dirs := fs.dirs + {Below(t, name)});
    SameFiles(fs, g, Below(t, name));
    DirsAreMade(g, outpath, Below(dir, name), kids, Below(t, name));
    DirsOfConcat(outpath, [r], inner);
    OneRecordMakes(outpath, r);
    MadeDirsConcat(fs, [Below(t, name)], DirsOf(outpath, inner));
    assert MadeDirs(fs, [Below(t, name)]) == g by { assert [Below(t, name)][1..] == []; }
  }

  lemma CreateBelow(fs: FileSystem, t: Text, name: Text, content: Text)
    requires t in fs.dirs && SLASH !in name && Below(t, name) !in fs.dirs
    ensures Create(fs, Below(t, name), content) == Done(fs.(files := fs.files + map[Below(t, name) := content]))
  {
    ParentOfBelow(t, name);
    hide Below, Parent;
    assert fs.files[Below(t, name) := content] == fs.files + map[Below(t, name) := content];
  }

  lemma MapsAssociate(a: map<Text, Text>, b: map<Text, Text>, c: map<Text, Text>)
    ensures (a + b) + c == a + (b + c)
    ensures map[] + a == a && a + map[] == a
  {
  }

  lemma OneFileMade(fs: FileSystem, outpath: Text, dir: Text, name: Text, content: Text, t: Text)
    requires t == Target(outpath, dir) && t in fs.dirs && SLASH !in name && BACKSLASH !in name && Below(t, name) !in fs.dirs
    ensures MadeFiles(fs, FilesOf(outpath, [FileRecord(Below(dir, name), content)]))
         == Done(fs.(files := fs.files + map[Below(t, name) := content]))
  {
    hide Target, Below, Create;
    var r := FileRecord(Below(dir, name), content);
    TargetOfBelow(outpath, dir, name);
    CreateBelow(fs, t, name, content);
    OneRecordMakes(outpath, r);
    assert [NewFile(Below(t, name), content)][1..] == [];
  }

  /** The second sweep makes the files of the tree, once its directories are there. */
  lemma {:induction false} FilesAreMade(fs: FileSystem, outpath: Text, dir: Text, f: Forest, t: Text)
    requires t == Target(outpath, dir) && t in fs.dirs && TreeDirs(t, f) <= fs.dirs && Named(f) && Plain(f)
    requires forall p :: p in TreeFiles(t, f) ==> p !in fs.dirs
    ensures MadeFiles(fs, FilesOf(outpath, Records(dir, f))) == Done(fs.(files := fs.files + TreeFiles(t, f)))
    decreases f, 0
  {
    hide Target, Below, Create;
    match f {
      case Empty => MapsAssociate(fs.files, map[], map[]);
      case File(name, content, next) =>
        if Hidden(name) {
          FilesAreMade(fs, outpath, dir, next, t);
          assert Records(dir, f) == Records(dir, next);
          MapsAssociate(TreeFiles(t, next), map[], map[]);
        } else {
          OneFileMade(fs, outpath, dir, name, content, t);
          var one := map[Below(t, name) := content];
          var g := fs.(files := fs.files + one);
          FilesAreMade(g, outpath, dir, next, t);
          var head := [FileRecord(Below(dir, name), content)];
          FilesOfConcat(outpath, head, Records(dir, next));
          MadeFilesConcat(fs, FilesOf(outpath, head), FilesOf(outpath, Records(dir, next)));
          MapsAssociate(fs.files, one, TreeFiles(t, next));
        }
      case Dir(name, kids, next) =>
        if Hidden(name) {
          FilesAreMade(fs, outpath, dir, next, t);
          assert Records(dir, f) == Records(dir, next);
          MapsAssociate(TreeFiles(t, next), map[], map[]);
        } else {
          DirIsFilled(fs, outpath, dir, name, kids, t);
          var one := TreeFiles(Below(t, name), kids);
          var g := fs.(files := fs.files + one);
          FilesAreMade(g, outpath, dir, next, t);
          var head := [DirRecord(Below(dir, name))] + Records(Below(dir, name), kids);
          FilesOfConcat(outpath, head, Records(dir, next));
          MadeFilesConcat(fs, FilesOf(outpath, head), FilesOf(outpath, Records(dir, next)));
          MapsAssociate(fs.files, one, TreeFiles(t, next));
        }
      case Other(_, next) => FilesAreMade(fs, outpath, dir, next, t);
    }
  }

  lemma {:induction false} DirIsFilled(fs: FileSystem, outpath: Text, dir: Text, name: Text, kids: Forest, t: Text)
    requires t == Target(outpath, dir) && BACKSLASH !in name && Named(kids) && Plain(kids)
    requires Below(t, name) in fs.dirs && TreeDirs(Below(t, name), kids) <= fs.dirs
    requires forall p :: p in TreeFiles(Below(t, name), kids) ==> p !in fs.dirs
    ensures MadeFiles(fs, FilesOf(outpath, [DirRecord(Below(dir, name))] + Records(Below(dir, name), kids)))
         == Done(fs.(files := fs.files + TreeFiles(Below(t, name), kids)))
    decreases kids, 1
  {
    hide Target, Below, Create, Records, TreeDirs, TreeFiles;
    TargetOfBelow(outpath, dir, name);
    FilesAreMade(fs, outpath, Below(dir, name), kids, Below(t, name));
    FilesOfConcat(outpath, [DirRecord(Below(dir, name))], Records(Below(dir, name), kids));
    OneRecordMakes(outpath, DirRecord(Below(dir, name)));
    assert [] + FilesOf(outpath, Records(Below(dir, name), kids)) == FilesOf(outpath, Records(Below(dir, name), kids));
  }

  /** With its root there and plain names the tree comes out as it went in. */
  lemma PlainTreeIsUnpacked(fs: FileSystem, outpath: Text, dir: Text, f: Forest)
    requires Named(f) && Distinct(f) && Plain(f) && Untouched(fs, Target(outpath, dir)) && Target(outpath, dir) in fs.dirs
    ensures Unpacked(fs, outpath, Records(dir, f)) == Done(Plus(fs, Target(outpath, dir), f))
  {
    hide Target, Records, DirsOf, FilesOf, TreeDirs, TreeFiles, Named, Distinct, Plain, MadeDirs, MadeFiles;
    var t := Target(outpath, dir);
    DirsAreMade(fs, outpath, dir, f, t);
    var g := fs.(dirs := fs.dirs + TreeDirs(t, f));
    TreeIsApart(t, f);
    TreeIsInside(t, f);
    FilesAreMade(g, outpath, dir, f, t);
  }

  // ----- when it does not -----

  /** A name in the tree that has a backslash. */
  lemma {:induction false} BackslashInTree(t: Text, f: Forest) returns (p: Text)
    requires !Plain(f)
    ensures BACKSLASH in p && (p in TreeDirs(t, f) || p in TreeFiles(t, f))
    decreases f
  {
    match f {
      case File(name, content, next) =>
        if !Plain(next) {
          p := BackslashInTree(t, next);
        } else {
          p := Below(t, name);
        }
      case Dir(name, kids, next) =>
        if !Plain(next) {
          p := BackslashInTree(t, next);
        } else if BACKSLASH in name {
          p := Below(t, name);
        } else {
          p := BackslashInTree(Below(t, name), kids);
        }
      case Other(_, next) => p := BackslashInTree(t, next);
    }
  }

  lemma RenamedHasNone(p: Text)
    ensures BACKSLASH !in Renamed(p)
  {
  }

  /** Nothing is made under a path with a backslash. */
  lemma {:induction false} NoBackslashMade(outpath: Text, records: seq<Record>)
    ensures forall p :: p in DirsOf(outpath, records) ==> BACKSLASH !in p
    ensures forall n :: n in FilesOf(outpath, records) ==> BACKSLASH !in n.path
    decreases |records|
  {
    if records != [] {
      NoBackslashMade(outpath, records[1..]);
      RenamedHasNone(outpath + [SLASH] + records[0].path);
    }
    hide Renamed;
  }

  lemma {:induction false} MadeDirsAdds(fs: FileSystem, paths: seq<Text>, p: Text)
    requires p !in paths
    ensures p in MadeDirs(fs, paths).dirs <==> p in fs.dirs
    ensures MadeDirs(fs, paths).files == fs.files
    decreases |paths|
  {
    hide Parent;
    if paths != [] {
      MadeDirsAdds(Mkdir(fs, paths[0]), paths[1..], p);
    }
  }

  lemma {:induction false} MadeFilesAdds(fs: FileSystem, files: seq<NewFile>, p: Text)
    requires forall n :: n in files ==> n.path != p
    ensures var r := MadeFiles(fs, files); r.Done? ==> r.fs.dirs == fs.dirs && (p in r.fs.files <==> p in fs.files)
    decreases |files|
  {
    hide Parent;
    if files != [] {
      var r := Create(fs, files[0].path, files[0].content);
      assert files[0] in files;
      if r.Done? {
        MadeFilesAdds(r.fs, files[1..], p);
      }
    }
  }

  /** A name with a backslash is not what comes out. */
  lemma BackslashIsLost(fs: FileSystem, outpath: Text, dir: Text, f: Forest)
    requires Named(f) && !Plain(f) && Untouched(fs, Target(outpath, dir))
    ensures Unpacked(fs, outpath, Records(dir, f)) != Done(Plus(fs, Target(outpath, dir), f))
  {
    hide Target, Records, DirsOf, FilesOf, TreeDirs, TreeFiles, Named, Plain, MadeDirs, MadeFiles;
    var t := Target(outpath, dir);
    var p := BackslashInTree(t, f);
    TreeIsInside(t, f);
    NoBackslashMade(outpath, Records(dir, f));
    MadeDirsAdds(fs, DirsOf(outpath, Records(dir, f)), p);
    MadeFilesAdds(MadeDirs(fs, DirsOf(outpath, Records(dir, f))), FilesOf(outpath, Records(dir, f)), p);
  }

  /** What is made has its place below the root, or is not made at all. */
  predicate Homeless(p: Text, fs: FileSystem) { Parent(p) !in fs.dirs }

  lemma {:induction false} HomelessDirs(fs: FileSystem, paths: seq<Text>)
    requires forall p :: p in paths ==> Homeless(p, fs)
    ensures MadeDirs(fs, paths) == fs
    decreases |paths|
  {
    if paths != [] {
      assert paths[0] in paths;
      HomelessDirs(fs, paths[1..]);
    }
  }

  lemma HomelessFiles(fs: FileSystem, files: seq<NewFile>)
    requires forall n :: n in files ==> Homeless(n.path, fs)
    ensures MadeFiles(fs, files) == if files == [] then Done(fs) else Stopped
  {
    if files != [] {
      assert files[0] in files;
    }
  }

  /** A recorded path is below the root, and stays so when it is renamed. */
  lemma {:induction false} RecordsUnder(dir: Text, f: Forest)
    ensures forall r :: r in Records(dir, f) ==> Under(r.path, dir)
    decreases f
  {
    match f {
      case Empty =>
      case File(name, content, next) =>
        RecordsUnder(dir, next);
        UnderBelow(dir, dir, name);
      case Dir(name, kids, next) =>
        RecordsUnder(dir, next);
        RecordsUnder(Below(dir, name), kids);
        UnderBelow(dir, dir, name);
        forall r | r in Records(Below(dir, name), kids) ensures Under(r.path, dir) {
          UnderBelow(r.path, dir, name);
        }
      case Other(_, next) => RecordsUnder(dir, next);
    }
    hide Under, Below;
  }

  lemma ParentUnder(p: Text, t: Text)
    requires Under(p, t)
    ensures Parent(p) == t || Under(Parent(p), t)
  {
    assert p[|t|] == SLASH;
    var i := LastSlash(p);
    assert i >= |t|;
    assert p[..|t| + 1] == t + [SLASH];
    if i == |t| {
      assert p[..i] == t;
    } else {
      assert p[..i][..|t| + 1] == t + [SLASH];
    }
  }

  lemma TargetUnder(outpath: Text, path: Text, dir: Text)
    requires Under(path, dir)
    ensures Under(Target(outpath, path), Target(outpath, dir))
  {
    var t, d := Target(outpath, path), Target(outpath, dir);
    assert path[..|dir| + 1] == dir + [SLASH];
    assert (outpath + [SLASH] + path)[..|d| + 1] == outpath + [SLASH] + dir + [SLASH];
    assert t[..|d| + 1] == d + [SLASH];
  }

  lemma {:induction false} AllHomeless(fs: FileSystem, outpath: Text, dir: Text, records: seq<Record>)
    requires Target(outpath, dir) !in fs.dirs && Untouched(fs, Target(outpath, dir))
    requires forall r :: r in records ==> Under(r.path, dir)
    ensures forall p :: p in DirsOf(outpath, records) ==> Homeless(p, fs)
    ensures forall n :: n in FilesOf(outpath, records) ==> Homeless(n.path, fs)
    decreases |records|
  {
    hide Target, Parent, Under;
    if records != [] {
      AllHomeless(fs, outpath, dir, records[1..]);
      assert records[0] in records;
      TargetUnder(outpath, records[0].path, dir);
      ParentUnder(Target(outpath, records[0].path), Target(outpath, dir));
    }
  }

  /** A tree with records has something in it. */
  lemma {:induction false} SomethingInTree(dir: Text, t: Text, f: Forest) returns (p: Text)
    requires Records(dir, f) != []
    ensures p in TreeDirs(t, f) || p in TreeFiles(t, f)
    decreases f
  {
    match f {
      case File(name, content, next) =>
        if Hidden(name) { p := SomethingInTree(dir, t, next); } else { p := Below(t, name); }
      case Dir(name, kids, next) =>
        if Hidden(name) { p := SomethingInTree(dir, t, next); } else { p := Below(t, name); }
      case Other(_, next) => p := SomethingInTree(dir, t, next);
    }
  }

  lemma {:induction false} NothingInTree(dir: Text, t: Text, f: Forest)
    requires Records(dir, f) == []
    ensures TreeDirs(t, f) == {} && TreeFiles(t, f) == map[] && Plain(f)
    decreases f
  {
    match f {
      case Empty =>
      case File(name, content, next) => NothingInTree(dir, t, next);
      case Dir(name, kids, next) => NothingInTree(dir, t, next);
      case Other(_, next) => NothingInTree(dir, t, next);
    }
  }

  /** Without its root nothing is made: the program stops at the first file, if there is one. */
  lemma RootlessTree(fs: FileSystem, outpath: Text, dir: Text, f: Forest)
    requires Untouched(fs, Target(outpath, dir)) && Target(outpath, dir) !in fs.dirs
    ensures Unpacked(fs, outpath, Records(dir, f)) == if FilesOf(outpath, Records(dir, f)) == [] then Done(fs) else Stopped
  {
    hide Target, Records, DirsOf, FilesOf, MadeDirs, MadeFiles, Homeless;
    RecordsUnder(dir, f);
    AllHomeless(fs, outpath, dir, Records(dir, f));
    HomelessDirs(fs, DirsOf(outpath, Records(dir, f)));
    HomelessFiles(fs, FilesOf(outpath, Records(dir, f)));
  }

  /**
   * Where nothing was below it, the tree comes out exactly as it went in if and only if its root is there
   * already, or it is empty, and no packed name has a backslash.
   */
  lemma UnpackedExactlyIf(fs: FileSystem, outpath: Text, dir: Text, f: Forest)
    requires Named(f) && Distinct(f) && Untouched(fs, Target(outpath, dir))
    ensures Unpacked(fs, outpath, Records(dir, f)) == Done(Plus(fs, Target(outpath, dir), f))
       <==> (Records(dir, f) == [] || Target(outpath, dir) in fs.dirs) && Plain(f)
  {
    hide Named, Distinct, Target, TreeDirs, TreeFiles, Unpacked, Plain, Records, Under;
    var t := Target(outpath, dir);
    if !Plain(f) {
      BackslashIsLost(fs, outpath, dir, f);
    } else if Records(dir, f) == [] {
      NothingInTree(dir, t, f);
      NoRecords(fs, outpath);
      MapsAssociate(fs.files, map[], map[]);
      assert fs.dirs + {} == fs.dirs;
    } else if t in fs.dirs {
      PlainTreeIsUnpacked(fs, outpath, dir, f);
    } else {
      RootlessTree(fs, outpath, dir, f);
      var p := SomethingInTree(dir, t, f);
      TreeIsInside(t, f);
      assert Under(p, t);
      assert p !in fs.dirs && p !in fs.files;
    }
  }

  lemma NoRecords(fs: FileSystem, outpath: Text)
    ensures Unpacked(fs, outpath, []) == Done(fs)
  {
  }

  // ----- three trees that do not come out -----

  /** Packed from `d` and unpacked below `o`, where `o/d` is not there: the program stops at the first file. */
  lemma MissingRootStops(content: Text)
    ensures var f := File([0x61], content, Empty);
            && Named(f) && Distinct(f) && Plain(f)
            && Unpacked(FileSystem({[0x6F]}, map[]), [0x6F], Records([0x64], f)) == Stopped
  {
    var fs, f := FileSystem({[0x6F]}, map[]), File([0x61], content, Empty);
    var r := FileRecord(Below([0x64], [0x61]), content);
    assert Records([0x64], f) == [r];
    OneRecordMakes([0x6F], r);
    assert |Target([0x6F], [0x64])| == 3;
    assert Untouched(fs, Target([0x6F], [0x64]));
    hide Target, Below;
    RootlessTree(fs, [0x6F], [0x64], f);
  }

  /** A name `a\b` becomes the path `a/b`. */
  lemma TargetOfBackslash(outpath: Text, dir: Text, a: Text, b: Text)
    requires BACKSLASH !in a && BACKSLASH !in b
    ensures Target(outpath, Below(dir, a + [BACKSLASH] + b)) == Below(Below(Target(outpath, dir), a), b)
  {
    var p := outpath + [SLASH] + Below(dir, a + [BACKSLASH] + b);
    var q := Below(Below(outpath + [SLASH] + dir, a), b);
    assert |p| == |q| && forall i :: 0 <= i < |p| ==> p[i] == q[i] || (p[i] == BACKSLASH && q[i] == SLASH);
    assert Renamed(p) == Renamed(q);
    assert Renamed(q) == Below(Below(Target(outpath, dir), a), b);
  }

  /** A file `a\b` where there is no directory `a`: the program stops. */
  lemma BackslashStops(fs: FileSystem, outpath: Text, dir: Text, a: Text, b: Text, content: Text)
    requires BACKSLASH !in a && BACKSLASH !in b && SLASH !in b && a != [] && a[0] != DOT
    requires Below(Target(outpath, dir), a) !in fs.dirs
    ensures Unpacked(fs, outpath, Records(dir, File(a + [BACKSLASH] + b, content, Empty))) == Stopped
  {
    var name := a + [BACKSLASH] + b;
    var r := FileRecord(Below(dir, name), content);
    assert !Hidden(name);
    assert Records(dir, File(name, content, Empty)) == [r];
    OneRecordMakes(outpath, r);
    TargetOfBackslash(outpath, dir, a, b);
    ParentOfBelow(Below(Target(outpath, dir), a), b);
    hide Target, Below, Parent;
    assert MadeDirs(fs, []) == fs;
  }

  lemma NoTree(t: Text)
    ensures TreeDirs(t, Empty) == {} && TreeFiles(t, Empty) == map[]
  {
  }

  lemma TreeOfPair(t: Text, a: Text, b: Text, content: Text)
    requires !Hidden(a) && !Hidden(b)
    ensures var f := Dir(a, File(b, content, Empty), Empty);
            TreeDirs(t, f) == {Below(t, a)} && TreeFiles(t, f) == map[Below(Below(t, a), b) := content]
  {
    var inside := File(b, content, Empty);
    hide Below;
    NoTree(t);
    NoTree(Below(t, a));
    assert TreeDirs(Below(t, a), inside) == {};
    assert TreeFiles(Below(t, a), inside) == map[Below(Below(t, a), b) := content];
  }

  /** Unpacking in two parts, the second of which is one file. */
  lemma UnpackedThenFile(fs: FileSystem, outpath: Text, records: seq<Record>, r: Record)
    requires r.FileRecord?
    ensures Unpacked(fs, outpath, records + [r]) ==
              match Unpacked(fs, outpath, records) case Stopped => Stopped case Done(g) => Create(g, Target(outpath, r.path), r.content)
  {
    hide Target, Create, MadeDirs;
    DirsOfConcat(outpath, records, [r]);
    FilesOfConcat(outpath, records, [r]);
    OneRecordMakes(outpath, r);
    assert DirsOf(outpath, records) + [] == DirsOf(outpath, records);
    MadeFilesConcat(MadeDirs(fs, DirsOf(outpath, records)), FilesOf(outpath, records), [NewFile(Target(outpath, r.path), r.content)]);
    assert [NewFile(Target(outpath, r.path), r.content)][1..] == [];
  }

  /** A file `a\b` beside a directory `a` with a file `b`: the one that comes later is written over the other. */
  lemma BackslashOverwrites(fs: FileSystem, outpath: Text, dir: Text, a: Text, b: Text, first: Text, second: Text)
    requires Named(Dir(a, File(b, first, Empty), Empty)) && BACKSLASH !in a && BACKSLASH !in b
    requires a != [] && a[0] != DOT && b != [] && b[0] != DOT
    requires Target(outpath, dir) in fs.dirs && Untouched(fs, Target(outpath, dir))
    ensures var t, f := Target(outpath, dir), Dir(a, File(b, first, Empty), File(a + [BACKSLASH] + b, second, Empty));
            Unpacked(fs, outpath, Records(dir, f)) ==
              Done(FileSystem(fs.dirs + {Below(t, a)}, fs.files[Below(Below(t, a), b) := second]))
  {
    var name, t := a + [BACKSLASH] + b, Target(outpath, dir);
    var head, last := Dir(a, File(b, first, Empty), Empty), FileRecord(Below(dir, name), second);
    RecordsOfPair(dir, a, File(b, first, Empty), name, second);
    PairIsPlain(a, b, first);
    hide Records, Target, Below, Unpacked, Under, TreeDirs, TreeFiles, Plain, Distinct, Named;
    PlainTreeIsUnpacked(fs, outpath, dir, head);
    TreeOfPair(t, a, b, first);
    UnpackedThenFile(fs, outpath, Records(dir, head), last);
    TargetOfBackslash(outpath, dir, a, b);
    var p := Below(Below(t, a), b);
    PathOfPair(t, a, b);
    assert (fs.files + map[p := first])[p := second] == fs.files[p := second];
  }

  lemma PairIsPlain(a: Text, b: Text, content: Text)
    requires Named(Dir(a, File(b, content, Empty), Empty)) && BACKSLASH !in a && BACKSLASH !in b
    requires a != [] && a[0] != DOT && b != [] && b[0] != DOT
    ensures var f := Dir(a, File(b, content, Empty), Empty); Plain(f) && Distinct(f)
    ensures SLASH !in b && !Hidden(a) && !Hidden(b)
  {
    assert Names(Empty) == {};
    assert Plain(File(b, content, Empty)) && Distinct(File(b, content, Empty)) && Named(File(b, content, Empty));
  }

  lemma RecordsOfPair(dir: Text, a: Text, kids: Forest, name: Text, content: Text)
    requires a != [] && a[0] != DOT && a <= name
    ensures Records(dir, Dir(a, kids, File(name, content, Empty))) == Records(dir, Dir(a, kids, Empty)) + [FileRecord(Below(dir, name), content)]
  {
    assert !Hidden(name);
    assert Records(dir, File(name, content, Empty)) == [FileRecord(Below(dir, name), content)];
    hide Below;
  }

  lemma PathOfPair(t: Text, a: Text, b: Text)
    requires SLASH !in b
    ensures var p := Below(Below(t, a), b); Parent(p) == Below(t, a) && p != Below(t, a) && Under(p, t)
  {
    ParentOfBelow(Below(t, a), b);
    assert |Below(Below(t, a), b)| > |Below(t, a)|;
    UnderBelow(Below(Below(t, a), b), t, a);
    UnderBelow(Below(t, a), Below(t, a), b);
    hide Parent;
  }

  // ----- the program -----

  class Disk {
    var dirs: set<Text>
    var files: map<Text, Text>

    function Now(): FileSystem
      reads this
    {
      FileSystem(dirs, files)
    }

    method MakeDir(p: Text)
      modifies this
      ensures Now() == Mkdir(old(Now()), p)
    {
      if Parent(p) in dirs && p !in dirs && p !in files {
        dirs := dirs + {p};
      }
    }

    method MakeFile(p: Text, content: Text) returns (ok: bool)
      modifies this
      ensures Create(old(Now()), p, content) == if ok then Done(Now()) else Stopped
      ensures !ok ==> Now() == old(Now())
    {
      ok := Parent(p) in dirs && p !in dirs;
      if ok {
        files := files[p := content];
      }
    }
  }

  lemma MadeDirsStep(fs: FileSystem, outpath: Text, records: seq<Record>)
    requires records != []
    ensures var r := records[0]; var g := if r.DirRecord? then Mkdir(fs, Target(outpath, r.path)) else fs;
            MadeDirs(fs, DirsOf(outpath, records)) == MadeDirs(g, DirsOf(outpath, records[1..]))
  {
    hide Target, Mkdir;
    var r, rest := records[0], records[1..];
    if r.DirRecord? {
      assert DirsOf(outpath, records)[1..] == DirsOf(outpath, rest);
    } else {
      assert DirsOf(outpath, records) == DirsOf(outpath, rest);
    }
  }

  lemma MadeFilesStep(fs: FileSystem, outpath: Text, records: seq<Record>)
    requires records != []
    ensures var r, rest := records[0], records[1..];
            MadeFiles(fs, FilesOf(outpath, records)) ==
              if r.DirRecord? then MadeFiles(fs, FilesOf(outpath, rest))
              else match Create(fs, Target(outpath, r.path), r.content)
                   case Stopped => Stopped case Done(g) => MadeFiles(g, FilesOf(outpath, rest))
  {
    hide Target, Create;
    var r, rest := records[0], records[1..];
    if r.FileRecord? {
      assert FilesOf(outpath, records)[1..] == FilesOf(outpath, rest);
    } else {
      assert FilesOf(outpath, records) == FilesOf(outpath, rest);
    }
  }

  /** The first sweep of `splite_file`. */
  method MakeDirs(b: Text, outpath: Text, disk: Disk, ghost records: seq<Record>)
    requires IsArchive(b, records)
    modifies disk
    ensures disk.Now() == MadeDirs(old(disk.Now()), DirsOf(outpath, records))
  {
    hide IsArchive, Begins, Behind, Target, Mkdir, MadeDirs, DirsOf;
    var at := 0;
    ghost var rest, goal := records, MadeDirs(disk.Now(), DirsOf(outpath, records));
    assert b[0..] == b;
    while |b| - at > 0
      invariant 0 <= at <= |b| && IsArchive(b[at..], rest) && MadeDirs(disk.Now(), DirsOf(outpath, rest)) == goal
      decreases |rest|
    {
      ArchiveStarts(b[at..], rest);
      MadeDirsStep(disk.Now(), outpath, rest);
      var path, isDir, next := ReadHeader(b, at, rest[0]);
      if isDir == 1 {
        disk.MakeDir(Target(outpath, path));
      }
      at := next;
      rest := rest[1..];
    }
    ArchiveStarts(b[at..], rest);
    NothingMade(disk.Now(), outpath);
  }

  lemma NothingMade(fs: FileSystem, outpath: Text)
    ensures MadeDirs(fs, DirsOf(outpath, [])) == fs && MadeFiles(fs, FilesOf(outpath, [])) == Done(fs)
  {
  }

  /** The second sweep; false where the program ends. */
  method MakeFiles(b: Text, outpath: Text, disk: Disk, ghost records: seq<Record>) returns (ok: bool)
    requires IsArchive(b, records)
    modifies disk
    ensures MadeFiles(old(disk.Now()), FilesOf(outpath, records)) == if ok then Done(disk.Now()) else Stopped
  {
    hide IsArchive, Begins, Behind, Target, Create, MadeFiles, FilesOf;
    var at := 0;
    ghost var rest, goal := records, MadeFiles(disk.Now(), FilesOf(outpath, records));
    assert b[0..] == b;
    while |b| - at > 0
      invariant 0 <= at <= |b| && IsArchive(b[at..], rest) && MadeFiles(disk.Now(), FilesOf(outpath, rest)) == goal
      decreases |rest|
    {
      ArchiveStarts(b[at..], rest);
      MadeFilesStep(disk.Now(), outpath, rest);
      var path, isDir, next := ReadHeader(b, at, rest[0]);
      if isDir == 0 {
        ok := disk.MakeFile(Target(outpath, path), b[at + 208..next]);
        if !ok {
          return false;
        }
      }
      at := next;
      rest := rest[1..];
    }
    ArchiveStarts(b[at..], rest);
    NothingMade(disk.Now(), outpath);
    ok := true;
  }

  /** `splite_file`: -1 for an archive that is too large, 0 where the program ends at a file it cannot make. */
  method Unpack(b: Text, outpath: Text, disk: Disk, ghost records: seq<Record>) returns (ret: int)
    requires IsArchive(b, records)
    modifies disk
    ensures ret == -1 <==> |b| >= MAX_FILE_SIZE
    ensures ret == -1 ==> disk.Now() == old(disk.Now())
    ensures ret != -1 ==> ret in {0, 1} && Unpacked(old(disk.Now()), outpath, records) == if ret == 1 then Done(disk.Now()) else Stopped
  {
    hide IsArchive, MadeDirs, MadeFiles;
    if |b| >= MAX_FILE_SIZE {
      return -1;
    }
    MakeDirs(b, outpath, disk, records);
    var ok := MakeFiles(b, outpath, disk, records);
    ret := if ok then 1 else 0;
  }

  /**
   * Packing a tree and unpacking it where nothing was gives back the tree if and only if no path and no file
   * is too large, nor the archive, its root is there, or it is empty, and no packed name has a backslash.
   */
  method RoundTrip(dir: Text, f: Forest, leftover: Text, outpath: Text, disk: Disk) returns (ok: bool)
    requires |leftover| == 208 && 0 !in dir && Named(f) && Distinct(f) && Untouched(disk.Now(), Target(outpath, dir))
    modifies disk
    ensures ok && disk.Now() == Plus(old(disk.Now()), Target(outpath, dir), f) <==>
              && AllPackable(Records(dir, f)) && ArchiveSize(Records(dir, f)) < MAX_FILE_SIZE
              && (Records(dir, f) == [] || Target(outpath, dir) in old(disk.Now()).dirs) && Plain(f)
  {
    hide IsArchive, AllPackable, Unpacked, Plus, Plain, Target, Untouched;
    var out := new Output();
    ok := Pack(dir, f, leftover, out);
    if ok {
      assert out.data[0..] == out.data;
      ArchiveHasSize(out.data, Records(dir, f));
      UnpackedExactlyIf(disk.Now(), outpath, dir, f);
      var ret := Unpack(out.data, outpath, disk, Records(dir, f));
      ok := ret == 1;
    }
  }
}
