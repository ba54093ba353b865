/**
 * The firmware archive: a directory tree packed as a row of fixed-size headers, each file's
 * followed by its bytes.
 */
module Archive {
  import opened MachineInt

  type Text = seq<byte>

  const SLASH: byte := 0x2F
  const BACKSLASH: byte := 0x5C
  const DOT: byte := 0x2E
  const NAME_ROOM: nat := 200
  const MAX_FILE_SIZE: nat := 20 * 1024 * 1024

  /** A directory's entries in the order of `scandir`: files, directories, and things that are neither. */
  datatype Forest =
    | Empty
    | File(name: Text, content: Text, next: Forest)
    | Dir(name: Text, kids: Forest, next: Forest)
    | Other(name: Text, next: Forest)

  /** A header of the archive, and what follows it. */
  datatype Record = DirRecord(path: Text) | FileRecord(path: Text, content: Text)

  function Hidden(name: Text): bool { name != [] && name[0] == DOT }

  function Below(dir: Text, name: Text): Text { dir + [SLASH] + name }

  /** What `check_file` packs, in its order. */
  function Records(dir: Text, f: Forest): seq<Record>
    decreases f
  {
    match f
    case Empty => []
    case File(name, content, next) =>
      (if Hidden(name) then [] else [FileRecord(Below(dir, name), content)]) + Records(dir, next)
    case Dir(name, kids, next) =>
      (if Hidden(name) then [] else [DirRecord(Below(dir, name))] + Records(Below(dir, name), kids)) + Records(dir, next)
    case Other(_, next) => Records(dir, next)
  }

  // ----- the bytes of a header -----

  /** `int` fields in memory order of the camera, lowest byte first. */
  function Int32(n: nat): (r: Text)
    requires n < TWO31
    ensures |r| == 4
  {
    var v := n / 0x100;
    var u := v / 0x100;
    [n % 0x100, v % 0x100, u % 0x100, u / 0x100]
  }

  function ToInt(b: Text): nat
    requires |b| == 4
  {
    var w: int, x: int, y: int, z: int := b[0], b[1], b[2], b[3];
    w + 0x100 * (x + 0x100 * (y + 0x100 * z))
  }

  lemma IntRoundTrip(n: nat)
    requires n < TWO31
    ensures ToInt(Int32(n)) == n
  {
  }

  function CString(b: Text): (r: Text)
    ensures r <= b
  {
    if b == [] || b[0] == 0 then [] else [b[0]] + CString(b[1..])
  }

  lemma {:induction false} CStringIs(s: Text, t: Text)
    requires 0 !in s && t != [] && t[0] == 0
    ensures CString(s + t) == s
  {
    if s == [] {
      assert s + t == t;
    } else {
      assert (s + t)[1..] == s[1..] + t;
      CStringIs(s[1..], t);
    }
  }

  /** `write_file` refuses longer names, and larger files. */
  predicate Packable(r: Record) {
    && |r.path| <= 59 && 0 !in r.path
    && (r.FileRecord? ==> |r.content| < MAX_FILE_SIZE)
  }

  /** A header as it is written; what the name does not fill, and the size of a directory, is left over from before. */
  ghost predicate IsHeader(h: Text, r: Record) {
    && |h| == 208 && CString(h[..200]) == r.path
    && ToInt(h[200..204]) == (if r.DirRecord? then 1 else 0)
    && (r.FileRecord? ==> ToInt(h[204..208]) == |r.content|)
  }

  function Body(r: Record): Text { if r.FileRecord? then r.content else [] }

  /** The bytes begin with this record. */
  ghost predicate Begins(b: Text, r: Record) {
    208 + |Body(r)| <= |b| && IsHeader(b[..208], r) && b[208..208 + |Body(r)|] == Body(r)
  }

  /** What is behind the first record. */
  ghost function Behind(b: Text, r: Record): (t: Text)
    requires Begins(b, r)
    ensures |t| == |b| - 208 - |Body(r)|
  {
    b[208 + |Body(r)|..]
  }

  /** These bytes are an archive of these records. */
  ghost predicate IsArchive(b: Text, records: seq<Record>)
    decreases |records|
  {
    if records == [] then b == [] else Begins(b, records[0]) && IsArchive(Behind(b, records[0]), records[1..])
  }

  lemma BeginsConcat(a: Text, b: Text, r: Record)
    requires Begins(a, r)
    ensures Begins(a + b, r) && Behind(a + b, r) == Behind(a, r) + b
  {
    var n := 208 + |Body(r)|;
    assert (a + b)[..208] == a[..208] && (a + b)[208..n] == a[208..n];
    hide IsHeader;
  }

  lemma ArchiveStep(b: Text, r: Record, rest: seq<Record>)
    ensures IsArchive(b, [r] + rest) <==> Begins(b, r) && IsArchive(Behind(b, r), rest)
  {
    assert ([r] + rest)[1..] == rest;
    hide Begins, Behind;
  }

  lemma {:induction false} ArchiveOfConcat(a: Text, b: Text, r: seq<Record>, s: seq<Record>)
    requires IsArchive(a, r) && IsArchive(b, s)
    ensures IsArchive(a + b, r + s)
    decreases |r|
  {
    if r == [] {
      assert a + b == b && r + s == s;
    } else {
      hide IsArchive, Begins, Behind;
      var rest := r[1..];
      assert r == [r[0]] + rest && r + s == [r[0]] + (rest + s);
      ArchiveStep(a, r[0], rest);
      ArchiveOfConcat(Behind(a, r[0]), b, rest, s);
      BeginsConcat(a, b, r[0]);
      ArchiveStep(a + b, r[0], rest + s);
    }
  }

  // ----- packing -----

  class Output {
    var data: Text

    constructor ()
      ensures data == []
    {
      data := [];
    }

    method Append(b: Text)
      modifies this
      ensures data == old(data) + b
    {
      data := data + b;
    }
  }

  /** The struct on the stack, filled in over whatever was there. */
  method FillHeader(leftover: Text, r: Record) returns (h: Text)
    requires |leftover| == 208 && |r.path| < NAME_ROOM && 0 !in r.path && |Body(r)| < TWO31
    ensures IsHeader(h, r)
  {
    var name := r.path + [0] + leftover[|r.path| + 1..200];
    CStringIs(r.path, [0] + leftover[|r.path| + 1..200]);
    assert name == r.path + ([0] + leftover[|r.path| + 1..200]);
    var kind := Int32(if r.DirRecord? then 1 else 0);
    IntRoundTrip(if r.DirRecord? then 1 else 0);
    var size := leftover[204..208];
    if r.FileRecord? {
      size := Int32(|r.content|);
      IntRoundTrip(|r.content|);
    }
    h := name + kind + size;
    assert h[..200] == name && h[200..204] == kind && h[204..208] == size;
    hide CString, ToInt, Int32;
  }

  /** `write_file` */
  method WriteRecord(r: Record, leftover: Text, out: Output) returns (ok: bool)
    requires |leftover| == 208 && 0 !in r.path
    modifies out
    ensures ok == Packable(r) == AllPackable([r])
    ensures ok ==> Grown(old(out.data), out.data, [r])
    ensures !ok ==> out.data == old(out.data)
  {
    AllOfOne(r);
    hide AllPackable;
    if |r.path| > 59 {
      return false;
    }
    if r.FileRecord? && |r.content| >= MAX_FILE_SIZE {
      return false;
    }
    var h := FillHeader(leftover, r);
    out.Append(h);
    out.Append(Body(r));
    assert out.data == old(out.data) + (h + Body(r)) && out.data[|old(out.data)|..] == h + Body(r);
    assert old(out.data) <= out.data;
    OneRecord(h, r);
    hide IsArchive, IsHeader;
    ok := true;
  }

  lemma AllOfOne(r: Record)
    ensures AllPackable([r]) == Packable(r)
  {
    assert [r][0] == r;
    hide Packable;
  }

  lemma OneRecord(h: Text, r: Record)
    requires IsHeader(h, r)
    ensures IsArchive(h + Body(r), [r])
  {
    var b, n := h + Body(r), 208 + |Body(r)|;
    assert b[..208] == h && b[208..n] == Body(r) && b[n..] == [] && [r] + [] == [r];
    assert Begins(b, r) && Behind(b, r) == [] && IsArchive([], []);
    ArchiveStep(b, r, []);
    hide IsHeader;
  }

  /** What the system promises of names: no zero byte, and no slash. */
  predicate Named(f: Forest) {
    match f
    case Empty => true
    case File(name, _, next) => 0 !in name && SLASH !in name && Named(next)
    case Dir(name, kids, next) => 0 !in name && SLASH !in name && Named(kids) && Named(next)
    case Other(_, next) => Named(next)
  }

  predicate AllPackable(records: seq<Record>) { forall i :: 0 <= i < |records| ==> Packable(records[i]) }

  /** What a piece of packing adds to the archive. */
  ghost predicate Grown(before: Text, after: Text, records: seq<Record>) {
    before <= after && IsArchive(after[|before|..], records)
  }

  lemma GrowsTwice(x: Text, y: Text, z: Text, r: seq<Record>, s: seq<Record>)
    requires Grown(x, y, r) && Grown(y, z, s)
    ensures Grown(x, z, r + s)
  {
    hide IsArchive;
    ArchiveOfConcat(y[|x|..], z[|y|..], r, s);
    assert y[|x|..] + z[|y|..] == z[|x|..];
  }

  lemma GrowsByNothing(x: Text)
    ensures Grown(x, x, [])
  {
    assert x[|x|..] == [] && IsArchive([], []);
  }

  /** `check_file`: the program ends at the first entry it cannot pack. */
  method Pack(dir: Text, f: Forest, leftover: Text, out: Output) returns (ok: bool)
    requires |leftover| == 208 && 0 !in dir && Named(f)
    modifies out
    ensures ok == AllPackable(Records(dir, f))
    ensures ok ==> Grown(old(out.data), out.data, Records(dir, f))
    decreases f, 0
  {
    hide IsArchive, Packable, Grown;
    match f {
      case Empty =>
        GrowsByNothing(out.data);
        ok := true;
      case File(name, content, next) =>
        ok := true;
        ghost var first: seq<Record> := [];
        GrowsByNothing(out.data);
        if !Hidden(name) {
          first := [FileRecord(Below(dir, name), content)];
          ok := WriteRecord(FileRecord(Below(dir, name), content), leftover, out);
        }
        Both(first, Records(dir, next));
        if ok {
          ghost var written := out.data;
          ok := Pack(dir, next, leftover, out);
          if ok { GrowsTwice(old(out.data), written, out.data, first, Records(dir, next)); }
        }
      case Dir(name, kids, next) =>
        ok := true;
        ghost var first: seq<Record> := [];
        GrowsByNothing(out.data);
        if !Hidden(name) {
          first := [DirRecord(Below(dir, name))] + Records(Below(dir, name), kids);
          ok := PackDir(dir, name, kids, leftover, out);
        }
        Both(first, Records(dir, next));
        if ok {
          ghost var written := out.data;
          ok := Pack(dir, next, leftover, out);
          if ok { GrowsTwice(old(out.data), written, out.data, first, Records(dir, next)); }
        }
      case Other(_, next) =>
        ok := Pack(dir, next, leftover, out);
    }
  }

  lemma Both(r: seq<Record>, s: seq<Record>)
    ensures AllPackable(r + s) == (AllPackable(r) && AllPackable(s))
  {
    hide Packable;
    if AllPackable(r + s) {
      assert forall i :: 0 <= i < |r| ==> r[i] == (r + s)[i];
      assert forall i :: 0 <= i < |s| ==> s[i] == (r + s)[|r| + i];
    }
  }

  /** A directory's header, and then everything in it. */
  method PackDir(dir: Text, name: Text, kids: Forest, leftover: Text, out: Output) returns (ok: bool)
    requires |leftover| == 208 && 0 !in dir && 0 !in name && Named(kids)
    modifies out
    ensures var r := [DirRecord(Below(dir, name))] + Records(Below(dir, name), kids);
            ok == AllPackable(r) && (ok ==> Grown(old(out.data), out.data, r))
    decreases kids, 1
  {
    hide IsArchive, Packable, Grown;
    var head := DirRecord(Below(dir, name));
    ok := WriteRecord(head, leftover, out);
    Both([head], Records(Below(dir, name), kids));
    if ok {
      ghost var written := out.data;
      ok := Pack(Below(dir, name), kids, leftover, out);
      if ok { GrowsTwice(old(out.data), written, out.data, [head], Records(Below(dir, name), kids)); }
    }
  }

  // ----- unpacking -----

  /** `changestr` on the path under the output directory */
  function Renamed(p: Text): (r: Text)
    ensures |r| == |p|
  {
    seq(|p|, i requires 0 <= i < |p| => if p[i] == BACKSLASH then SLASH else p[i])
  }

  function Target(outpath: Text, path: Text): Text { Renamed(outpath + [SLASH] + path) }

  datatype NewFile = NewFile(path: Text, content: Text)

  /** The directories a row of records makes, and the files. */
  function DirsOf(outpath: Text, records: seq<Record>): seq<Text> {
    if records == [] then []
    else (if records[0].DirRecord? then [Target(outpath, records[0].path)] else []) + DirsOf(outpath, records[1..])
  }

  function FilesOf(outpath: Text, records: seq<Record>): seq<NewFile> {
    if records == [] then []
    else (if records[0].FileRecord? then [NewFile(Target(outpath, records[0].path), records[0].content)] else [])
         + FilesOf(outpath, records[1..])
  }

  lemma Slices(b: Text, at: nat, i: nat, j: nat)
    requires i <= j && at + j <= |b|
    ensures b[at..][i..j] == b[at + i..at + j] && b[at..][j..] == b[at + j..]
  {
  }

  /** A header read back, and how far it is to the next. */
  method ReadHeader(b: Text, at: nat, ghost r: Record) returns (path: Text, isDir: nat, next: nat)
    requires at <= |b| && Begins(b[at..], r)
    ensures path == r.path && isDir == (if r.DirRecord? then 1 else 0)
    ensures next == at + 208 + |Body(r)| <= |b| && (isDir == 0 ==> b[at + 208..next] == r.content)
    ensures b[next..] == Behind(b[at..], r)
  {
    hide CString, ToInt;
    var h := b[at..at + 208];
    Slices(b, at, 0, 208);
    Slices(b, at, 208, 208 + |Body(r)|);
    path := CString(h[..200]);
    isDir := ToInt(h[200..204]);
    next := at + 208;
    if isDir == 0 {
      next := next + ToInt(h[204..208]);
    }
  }

  lemma ArchiveStarts(b: Text, records: seq<Record>)
    requires IsArchive(b, records)
    ensures b != [] <==> records != []
    ensures records != [] ==> Begins(b, records[0]) && IsArchive(Behind(b, records[0]), records[1..])
  {
  }

  function ArchiveSize(records: seq<Record>): nat {
    if records == [] then 0 else 208 + |Body(records[0])| + ArchiveSize(records[1..])
  }

  lemma {:induction false} ArchiveHasSize(b: Text, records: seq<Record>)
    requires IsArchive(b, records)
    ensures |b| == ArchiveSize(records)
    decreases |records|
  {
    hide Begins, Behind;
    if records != [] {
      ArchiveHasSize(Behind(b, records[0]), records[1..]);
    }
  }

  // ----- everything is recorded behind its directory -----

  function LastSlash(p: Text): (i: int)
    ensures -1 <= i < |p|
    ensures i >= 0 ==> p[i] == SLASH
    ensures forall j :: i < j < |p| ==> p[j] != SLASH
  {
    var n := |p| - 1;
    if p == [] then -1 else if p[n] == SLASH then n else LastSlash(p[..n])
  }

  /** Everything in front of the last slash. */
  function Parent(p: Text): Text { if LastSlash(p) < 0 then [] else p[..LastSlash(p)] }

  lemma ParentOfBelow(dir: Text, name: Text)
    requires SLASH !in name
    ensures Parent(Below(dir, name)) == dir
  {
    var p := Below(dir, name);
    assert p[|dir|] == SLASH && forall j :: |dir| < j < |p| ==> p[j] == name[j - |dir| - 1];
    assert LastSlash(p) == |dir|;
  }

  /** Each record's directory is one of these, or recorded before it. */
  predicate Anchored(records: seq<Record>, dirs: set<Text>)
    decreases |records|
  {
    records == [] || (Parent(records[0].path) in dirs && Anchored(records[1..], With(dirs, records[0])))
  }

  function With(dirs: set<Text>, r: Record): set<Text> { if r.DirRecord? then dirs + {r.path} else dirs }

  lemma {:induction false} AnchoredInMore(records: seq<Record>, dirs: set<Text>, more: set<Text>)
    requires Anchored(records, dirs) && dirs <= more
    ensures Anchored(records, more)
    decreases |records|
  {
    if records != [] {
      AnchoredInMore(records[1..], With(dirs, records[0]), With(more, records[0]));
    }
  }

  lemma {:induction false} AnchoredConcat(r: seq<Record>, s: seq<Record>, dirs: set<Text>)
    requires Anchored(r, dirs) && Anchored(s, dirs)
    ensures Anchored(r + s, dirs)
    decreases |r|
  {
    if r == [] {
      assert r + s == s;
    } else {
      assert (r + s)[1..] == r[1..] + s && (r + s)[0] == r[0];
      AnchoredInMore(s, dirs, With(dirs, r[0]));
      AnchoredConcat(r[1..], s, With(dirs, r[0]));
    }
  }

  lemma OneIsAnchored(dir: Text, name: Text, r: Record, dirs: set<Text>)
    requires r.path == Below(dir, name) && SLASH !in name && dir in dirs
    ensures Anchored([r], dirs)
  {
    ParentOfBelow(dir, name);
    assert [r][1..] == [];
  }

  lemma {:induction false} RecordsAreAnchored(dir: Text, f: Forest, dirs: set<Text>)
    requires dir in dirs && Named(f)
    ensures Anchored(Records(dir, f), dirs)
    decreases f, 0
  {
    hide Anchored;
    match f {
      case Empty => NothingIsAnchored(dirs);
      case File(name, content, next) =>
        RecordsAreAnchored(dir, next, dirs);
        if Hidden(name) {
          assert Records(dir, f) == Records(dir, next);
        } else {
          OneIsAnchored(dir, name, FileRecord(Below(dir, name), content), dirs);
          AnchoredConcat([FileRecord(Below(dir, name), content)], Records(dir, next), dirs);
        }
      case Dir(name, kids, next) =>
        RecordsAreAnchored(dir, next, dirs);
        if Hidden(name) {
          assert Records(dir, f) == Records(dir, next);
        } else {
          DirIsAnchored(dir, name, kids, dirs);
          AnchoredConcat([DirRecord(Below(dir, name))] + Records(Below(dir, name), kids), Records(dir, next), dirs);
        }
      case Other(_, next) => RecordsAreAnchored(dir, next, dirs);
    }
  }

  lemma NothingIsAnchored(dirs: set<Text>)
    ensures Anchored([], dirs)
  {
  }

  lemma {:induction false} DirIsAnchored(dir: Text, name: Text, kids: Forest, dirs: set<Text>)
    requires dir in dirs && SLASH !in name && Named(kids)
    ensures Anchored([DirRecord(Below(dir, name))] + Records(Below(dir, name), kids), dirs)
    decreases kids, 1
  {
    var head, inner := DirRecord(Below(dir, name)), Records(Below(dir, name), kids);
    RecordsAreAnchored(Below(dir, name), kids, With(dirs, head));
    ParentOfBelow(dir, name);
    assert ([head] + inner)[1..] == inner;
  }

  lemma {:induction false} AnchoredMeans(records: seq<Record>, dirs: set<Text>, i: nat)
    requires Anchored(records, dirs) && i < |records|
    ensures Parent(records[i].path) in dirs || exists j :: 0 <= j < i && records[j] == DirRecord(Parent(records[i].path))
    decreases |records|
  {
    if i > 0 {
      var r, rest := records[0], records[1..];
      AnchoredMeans(rest, With(dirs, r), i - 1);
      var p := Parent(records[i].path);
      if p in With(dirs, r) {
        assert p in dirs || records[0] == DirRecord(p);
      } else {
        var j :| 0 <= j < i - 1 && rest[j] == DirRecord(p);
        assert records[j + 1] == DirRecord(p);
      }
      hide Parent, Anchored;
    }
  }

  /** The directory of every record is the packed one, or is recorded before it. */
  lemma EveryPathHasItsDirectory(dir: Text, f: Forest, i: nat)
    requires Named(f) && i < |Records(dir, f)|
    ensures var r := Records(dir, f);
            Parent(r[i].path) == dir || exists j :: 0 <= j < i && r[j] == DirRecord(Parent(r[i].path))
  {
    hide Parent, Anchored;
    RecordsAreAnchored(dir, f, {dir});
    AnchoredMeans(Records(dir, f), {dir}, i);
  }

  lemma {:induction false} RecordsAreBelow(dir: Text, f: Forest)
    ensures forall r :: r in Records(dir, f) ==> |r.path| > |dir|
    decreases f
  {
    match f {
      case Empty =>
      case File(name, content, next) => RecordsAreBelow(dir, next);
      case Dir(name, kids, next) =>
        RecordsAreBelow(dir, next);
        RecordsAreBelow(Below(dir, name), kids);
      case Other(_, next) => RecordsAreBelow(dir, next);
    }
  }

  lemma {:induction false} DirsAreTargets(outpath: Text, records: seq<Record>, n: nat)
    requires forall r :: r in records ==> |r.path| > n
    ensures forall p :: p in DirsOf(outpath, records) ==> |p| > |outpath| + 1 + n
  {
    if records != [] {
      DirsAreTargets(outpath, records[1..], n);
    }
  }

  /** The packed directory itself is not in the archive, and is never made. */
  lemma RootIsNotMade(dir: Text, f: Forest, outpath: Text)
    ensures Target(outpath, dir) !in DirsOf(outpath, Records(dir, f))
  {
    RecordsAreBelow(dir, f);
    DirsAreTargets(outpath, Records(dir, f), |dir|);
  }

  // ----- what is recorded -----

  datatype Item = Folder | Document(content: Text)

  /** The names lead from the top of the tree through its directories to this item. */
  predicate Leads(f: Forest, names: seq<Text>, item: Item)
    decreases f
  {
    names != [] &&
    match f
    case Empty => false
    case File(name, content, next) => (names == [name] && item == Document(content)) || Leads(next, names, item)
    case Dir(name, kids, next) =>
      || (names == [name] && item == Folder)
      || (names[0] == name && Leads(kids, names[1..], item))
      || Leads(next, names, item)
    case Other(_, next) => Leads(next, names, item)
  }

  /** No name begins with a dot. */
  predicate Visible(names: seq<Text>) { forall i :: 0 <= i < |names| && |names[i]| > 0 ==> names[i][0] != 0x2E }

  function Path(dir: Text, names: seq<Text>): Text
    decreases |names|
  {
    if names == [] then dir else Path(dir + [0x2F] + names[0], names[1..])
  }

  function RecordOf(path: Text, item: Item): Record {
    match item case Folder => DirRecord(path) case Document(content) => FileRecord(path, content)
  }

  lemma PathOfOne(dir: Text, name: Text)
    ensures Path(dir, [name]) == Below(dir, name)
  {
    assert [name][1..] == [];
  }

  lemma {:induction false} VisibleIsRecorded(dir: Text, f: Forest, names: seq<Text>, item: Item)
    requires Leads(f, names, item) && Visible(names)
    ensures RecordOf(Path(dir, names), item) in Records(dir, f)
    decreases f
  {
    PathOfOne(dir, names[0]);
    match f {
      case Empty =>
      case File(name, content, next) =>
        if !(names == [name] && item == Document(content)) { VisibleIsRecorded(dir, next, names, item); }
      case Dir(name, kids, next) =>
        if names == [name] && item == Folder {
        } else if names[0] == name && Leads(kids, names[1..], item) {
          assert forall i :: 0 <= i < |names| - 1 ==> names[1..][i] == names[i + 1];
          VisibleIsRecorded(Below(dir, name), kids, names[1..], item);
        } else {
          VisibleIsRecorded(dir, next, names, item);
        }
      case Other(_, next) => VisibleIsRecorded(dir, next, names, item);
    }
  }

  lemma {:induction false} RecordedLeads(dir: Text, f: Forest, r: Record) returns (names: seq<Text>, item: Item)
    requires r in Records(dir, f)
    ensures Leads(f, names, item) && Visible(names) && r == RecordOf(Path(dir, names), item)
    decreases f
  {
    match f {
      case File(name, content, next) =>
        if r in Records(dir, next) {
          names, item := RecordedLeads(dir, next, r);
        } else {
          names, item := [name], Document(content);
          PathOfOne(dir, name);
        }
      case Dir(name, kids, next) =>
        if r in Records(dir, next) {
          names, item := RecordedLeads(dir, next, r);
        } else if r == DirRecord(Below(dir, name)) {
          names, item := [name], Folder;
          PathOfOne(dir, name);
        } else {
          var inner;
          inner, item := RecordedLeads(Below(dir, name), kids, r);
          names := [name] + inner;
          assert names[1..] == inner;
        }
      case Other(_, next) => names, item := RecordedLeads(dir, next, r);
    }
  }

  /** A record is in the archive if and only if it stands for an item of the tree, under names without a leading dot. */
  lemma RecordedExactlyIf(dir: Text, f: Forest, r: Record)
    ensures r in Records(dir, f) <==>
            exists names, item :: Leads(f, names, item) && Visible(names) && r == RecordOf(Path(dir, names), item)
  {
    hide Records, Leads, Visible, Path, RecordOf;
    if r in Records(dir, f) {
      var names, item := RecordedLeads(dir, f, r);
    }
    forall names, item | Leads(f, names, item) && Visible(names) && r == RecordOf(Path(dir, names), item)
      ensures r in Records(dir, f)
    {
      VisibleIsRecorded(dir, f, names, item);
    }
  }

  predicate Fits(path: Text, item: Item) {
    |path| < 60 && 0 !in path && (item.Document? ==> |item.content| < 20971520)
  }

  ghost predicate EverythingFits(dir: Text, f: Forest) {
    forall names, item :: Leads(f, names, item) && Visible(names) ==> Fits(Path(dir, names), item)
  }

  /** A tree is packed if and only if the paths of its visible items are below 60 bytes, and its files below 20 MiB. */
  lemma PackedExactlyIf(dir: Text, f: Forest)
    ensures AllPackable(Records(dir, f)) <==> EverythingFits(dir, f)
  {
    var records := Records(dir, f);
    hide Records, Leads, Visible, Path;
    if AllPackable(records) {
      forall names, item | Leads(f, names, item) && Visible(names) ensures Fits(Path(dir, names), item) {
        VisibleIsRecorded(dir, f, names, item);
        var i :| 0 <= i < |records| && records[i] == RecordOf(Path(dir, names), item);
        assert Packable(records[i]);
      }
    }
    if EverythingFits(dir, f) {
      forall i | 0 <= i < |records| ensures Packable(records[i]) {
        var names, item := RecordedLeads(dir, f, records[i]);
        assert Fits(Path(dir, names), item);
      }
    }
  }

  /**
   * Where a header of 208 bytes has what: the path and a zero byte, 1 at 200 for a directory, the length at 204,
   * lowest byte first.
   */
  lemma HeaderLayout(h: Text, r: Record)
    requires IsHeader(h, r)
    ensures |h| == 208 && |r.path| <= 200 && h[..|r.path|] == r.path && (|r.path| < 200 ==> h[|r.path|] == 0)
    ensures h[201] == h[202] == h[203] == 0 && (r.DirRecord? <==> h[200] == 1) && (r.FileRecord? <==> h[200] == 0)
    ensures r.FileRecord? ==> |r.content| == h[204] as int + h[205] as int * 0x100 + h[206] as int * 0x10000 + h[207] as int * 0x1000000
  {
    var name, kind, size := h[..200], h[200..204], h[204..208];
    CStringEnds(name);
    hide CString;
    assert kind[0] == h[200] && kind[1] == h[201] && kind[2] == h[202] && kind[3] == h[203];
    assert size[0] == h[204] && size[1] == h[205] && size[2] == h[206] && size[3] == h[207];
  }

  lemma {:induction false} CStringEnds(b: Text)
    ensures |CString(b)| < |b| ==> b[|CString(b)|] == 0
  {
    if b != [] && b[0] != 0 { CStringEnds(b[1..]); }
  }
}
