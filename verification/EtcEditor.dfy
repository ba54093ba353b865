/**
 * The same as the program does it: pointers advance through a line buffer that is cut in
 * place with zero bytes, and lines are streamed from the configuration file to a temporary one.
 */
module EtcEditor {
  import opened EtcFile

  /** The C string at position `i`. */
  function CString(a: seq<char>, i: nat): string
    requires i <= |a|
  {
    Until(a[i..], {'\0'})
  }

  lemma {:induction false} CStringIs(a: seq<char>, i: nat, s: string)
    requires i + |s| < |a| && a[i..i + |s|] == s && '\0' !in s && a[i + |s|] == '\0'
    ensures CString(a, i) == s
  {
    var t := a[i + |s|..];
    assert a[i..] == s + t;
    UntilFinds(s, t, {'\0'});
  }

  /** A zero-terminated line in a buffer with room for one more byte. */
  predicate Holds(a: seq<char>, line: string) {
    && |line| + 2 <= |a| && a[|line|] == '\0'
    && forall i :: 0 <= i < |line| ==> a[i] == line[i] != '\0'
  }

  /** Skips the blanks at position `from` of a line. */
  method SkipIn(buf: array<char>, from: nat, ghost line: string) returns (current: nat)
    requires Holds(buf[..], line) && from <= |line|
    ensures from <= current <= |line| && line[current..] == SkipBlanks(line[from..])
    ensures (forall i :: from <= i < current ==> buf[i] in BLANKS) && buf[current] !in BLANKS
  {
    current := from;
    while buf[current] == ' ' || buf[current] == '\t'
      invariant from <= current <= |line| && SkipBlanks(line[current..]) == SkipBlanks(line[from..])
      invariant forall i :: from <= i < current ==> buf[i] in BLANKS
      decreases |line| - current
    {
      assert line[current..][1..] == line[current + 1..];
      current := current + 1;
    }
  }

  /** Advances to the first of the characters where a name, a key or a value ends. */
  method ScanIn(buf: array<char>, from: nat, stops: set<char>, ghost line: string) returns (tail: nat)
    requires Holds(buf[..], line) && from <= |line| && '\0' in stops
    ensures from <= tail <= |line| && line[from..tail] == Until(line[from..], stops)
    ensures buf[tail] in stops
  {
    tail := from;
    while buf[tail] !in stops
      invariant from <= tail <= |line| && forall i :: from <= i < tail ==> line[i] !in stops
      decreases |line| - tail
    {
      tail := tail + 1;
    }
    assert line[from..] == line[from..tail] + line[tail..];
    UntilFinds(line[from..tail], line[tail..], stops);
  }

  /** `co_get_section_name`; the name is cut out of the buffer. */
  method GetSectionName(buf: array<char>, ghost line: string) returns (found: bool, name: nat)
    requires Holds(buf[..], line)
    modifies buf
    ensures found == Classify(line).Header?
    ensures found ==> name <= buf.Length && CString(buf[..], name) == Classify(line).name
  {
    hide SkipBlanks, Until;
    var current := SkipIn(buf, 0, line);
    assert line[0..] == line;
    if buf[current] != '[' {
      return false, 0;
    }
    assert line[current..][1..] == line[current + 1..];
    name := SkipIn(buf, current + 1, line);
    current := ScanIn(buf, name, NAMESTOPS, line);
    buf[current] := '\0';
    CStringIs(buf[..], name, line[name..current]);
    found := true;
  }

  /** A text whose blanks at the end are overwritten with zero bytes. */
  function Cleared(a: seq<char>): (r: seq<char>)
    ensures |r| == |a|
  {
    if a != [] && a[|a| - 1] in BLANKS then Cleared(a[..|a| - 1]) + ['\0'] else a
  }

  /** The loop that cuts blanks off, once it has left the line at its start. */
  method ClearFront(front: array<char>)
    modifies front
    ensures front[..] == Cleared(old(front[..]))
  {
    var end := front.Length;
    ghost var a, zeros := front[..], [];
    assert a[..end] == a;
    while end > 0 && (front[end - 1] == ' ' || front[end - 1] == '\t')
      invariant end <= front.Length && front[..] == a[..end] + zeros && Cleared(a) == Cleared(a[..end]) + zeros
    {
      assert a[..end][..end - 1] == a[..end - 1];
      assert front[end - 1] == a[end - 1];
      front[end - 1] := '\0';
      zeros := ['\0'] + zeros;
      end := end - 1;
    }
    assert end > 0 ==> front[end - 1] == a[end - 1];
  }

  /**
   * Cuts the blanks before `tail` off. A key stops the loop; without one it goes on through the blanks
   * the line starts with, and through what is in front of the buffer.
   */
  method TrimIn(buf: array<char>, front: array<char>, from: nat, tail: nat) returns (end: nat)
    requires from <= tail < buf.Length && buf != front
    requires (forall i :: 0 <= i < from ==> buf[i] in BLANKS) && (from < tail ==> buf[from] !in BLANKS)
    modifies buf, front
    ensures end <= tail && if from < tail then from < end else end == 0
    ensures from < tail ==> old(buf[from..end]) == TrimRight(old(buf[from..tail]))
    ensures buf[if from < tail then end else tail] == '\0'
    ensures forall i :: 0 <= i < buf.Length && !(end <= i <= tail) ==> buf[i] == old(buf[i])
    ensures front[..] == if from < tail then old(front[..]) else Cleared(old(front[..]))
  {
    buf[tail] := '\0';
    end := tail;
    ghost var a := old(buf[..]);
    while end > 0 && (buf[end - 1] == ' ' || buf[end - 1] == '\t')
      invariant front[..] == old(front[..])
      invariant end <= tail && (from < tail ==> from < end) && buf[tail] == '\0' && buf[end] == '\0'
      invariant from < tail ==> TrimRight(a[from..end]) == TrimRight(a[from..tail])
      invariant forall i :: 0 <= i < buf.Length && !(end <= i <= tail) ==> buf[i] == a[i]
    {
      if from < tail {
        assert a[from..end][..end - from - 1] == a[from..end - 1];
      }
      buf[end - 1] := '\0';
      end := end - 1;
    }
    if from < tail {
      assert a[from..end] == old(buf[from..end]) && a[from..tail] == old(buf[from..tail]);
    }
    if end == 0 {
      ClearFront(front);
    }
  }

  /** Cuts out what follows the key that ends at `tail`. */
  method CutValue(buf: array<char>, tail: nat, ghost line: string) returns (value: nat, stop: nat)
    requires Holds(buf[..], line) && tail <= |line|
    modifies buf
    ensures tail < value <= stop < buf.Length && buf[stop] == '\0'
    ensures forall i :: 0 <= i < buf.Length && i != stop ==> buf[i] == old(buf[i])
    ensures buf[value..stop] == ValueOf(line[tail..]) && '\0' !in ValueOf(line[tail..])
  {
    hide Until;
    ghost var rest := line[tail..];
    value := tail + 1;
    if buf[tail] != '=' {
      buf[value] := '\0';
      stop := value;
    } else {
      assert rest[1..] == line[value..];
      stop := ScanIn(buf, value, ENDS, line);
      assert buf[value..stop] == line[value..stop];
      UntilIsFree(line[value..], ENDS);
      buf[stop] := '\0';
    }
  }

  lemma HeldHasNoZero(a: seq<char>, line: string, from: nat, to: nat)
    requires Holds(a, line) && from <= to <= |line|
    ensures '\0' !in line[from..to]
  {
    forall j | 0 <= j < to - from ensures line[from..to][j] != '\0' {
      assert a[from + j] == line[from + j] != '\0';
    }
  }

  /** Cuts key and value out of a line whose first visible character is at `key`. */
  method CutEntry(buf: array<char>, front: array<char>, key: nat, ghost line: string) returns (value: nat)
    requires Holds(buf[..], line) && key <= |line| && buf != front
    requires (forall i :: 0 <= i < key ==> buf[i] in BLANKS) && buf[key] !in BLANKS
    modifies buf, front
    ensures key <= buf.Length && value <= buf.Length
    ensures var k := Until(line[key..], KEYSTOPS);
            && CString(buf[..], key) == TrimRight(k) && CString(buf[..], value) == ValueOf(line[key..][|k|..])
            && front[..] == if k == "" then Cleared(old(front[..])) else old(front[..])
  {
    hide Until, TrimRight, ValueOf, CString, Cleared;
    var tail := ScanIn(buf, key, KEYSTOPS, line);
    HeldHasNoZero(buf[..], line, key, tail);
    var stop;
    value, stop := CutValue(buf, tail, line);
    ghost var v := ValueOf(line[tail..]);
    assert buf[key..tail] == line[key..tail] && line[key..][tail - key..] == line[tail..];
    var end := TrimIn(buf, front, key, tail);
    assert buf[value..stop] == v;
    CStringIs(buf[..], value, v);
    if key < tail {
      assert buf[key..end] == line[key..end];
      CStringIs(buf[..], key, line[key..end]);
    } else {
      CStringIs(buf[..], key, "");
      assert line[key..tail] == "";
      TrimIsPrefix("");
    }
  }

  lemma {:induction false} TrimKeepsVisible(s: string)
    requires s != "" && s[0] !in BLANKS
    ensures TrimRight(s) != ""
    decreases |s|
  {
    if s[|s| - 1] in BLANKS {
      TrimKeepsVisible(s[..|s| - 1]);
    }
  }

  /**
   * `co_get_key_value`; key and value are cut out of the buffer. `front` is the memory in front of it:
   * if the key is empty, blanks there are overwritten.
   */
  method GetKeyValue(buf: array<char>, front: array<char>, ghost line: string) returns (ret: int, key: nat, value: nat)
    requires Holds(buf[..], line) && buf != front
    modifies buf, front
    ensures ret == (match Classify(line) case Junk => -1 case Header(_) => 1 case Entry(_, _) => 0)
    ensures key <= buf.Length && value <= buf.Length
    ensures ret == 0 ==> Classify(line) == Entry(CString(buf[..], key), CString(buf[..], value))
    ensures front[..] == if ret == 0 && Classify(line).key == "" then Cleared(old(front[..])) else old(front[..])
  {
    key := SkipIn(buf, 0, line);
    value := 0;
    assert line[0..] == line;
    hide SkipBlanks, Until, TrimRight, ValueOf, CString, Cleared;
    if buf[key] == ';' || buf[key] == '#' {
      return -1, key, 0;
    }
    if buf[key] == '[' {
      return 1, key, 0;
    }
    if buf[key] == '\n' || buf[key] == '\0' || buf[key] == '\r' {
      return -1, key, 0;
    }
    ghost var k := Until(line[key..], KEYSTOPS);
    if k != "" {
      TrimKeepsVisible(k);
    } else {
      TrimIsPrefix("");
    }
    value := CutEntry(buf, front, key, line);
    ret := 0;
  }

  // ----- files -----

  class TextFile {
    var present: bool
    var data: string
    var pos: nat

    constructor (text: string)
      ensures present && data == text && pos == 0
    {
      present, data, pos := true, text, 0;
    }

    /** What is left to read. */
    function Left(): string
      reads this
    {
      if pos <= |data| then data[pos..] else ""
    }

    /** `fgets` into a buffer of `ETC_MAXLINE` characters. */
    method ReadLine(buf: array<char>) returns (n: nat)
      requires buf.Length == ETC_MAXLINE + 2 && pos <= |data| && '\0' !in data
      modifies buf, this`pos
      ensures n == |First(old(Left()))| && pos == old(pos) + n <= |data| && Left() == Rest(old(Left()))
      ensures n == 0 <==> old(Left()) == ""
      ensures Holds(buf[..], First(old(Left())))
    {
      ghost var s := Left();
      n := 0;
      while pos + n < |data| && n < ETC_MAXLINE - 1 && (n == 0 || buf[n - 1] != '\n')
        invariant pos == old(pos) && n < ETC_MAXLINE && n <= |s|
        invariant forall i :: 0 <= i < n ==> buf[i] == s[i]
        invariant forall i :: 0 <= i < n - 1 ==> s[i] != '\n'
        decreases ETC_MAXLINE - n
      {
        buf[n] := data[pos + n];
        n := n + 1;
      }
      FirstStopsAt(s, n, ETC_MAXLINE - 1);
      assert First(s) == s[..n] && Rest(s) == s[n..] == data[pos + n..];
      hide LineLength, First, Rest;
      buf[n] := '\0';
      pos := pos + n;
    }

    method Append(text: string)
      modifies this`data
      ensures data == old(data) + text
    {
      data := data + text;
    }
  }

  lemma {:induction false} FirstStopsAt(s: string, n: nat, room: nat)
    requires n <= |s| && n <= room && (forall i :: 0 <= i < n - 1 ==> s[i] != '\n')
    requires n == |s| || n == room || (n > 0 && s[n - 1] == '\n')
    ensures LineLength(s, room) == n
    decreases n
  {
    if n > 0 && s[0] != '\n' {
      FirstStopsAt(s[1..], n - 1, room - 1);
    }
  }

  function Prepend(done: string, p: Place): Place { p.(copied := done + p.copied) }

  function Copy(copying: bool, text: string): string { if copying then text else "" }

  /** `co_etc_LocateSection`: one line. */
  method SectionLine(f: TextFile, section: string, copying: bool, bak: TextFile) returns (end: bool, hit: bool)
    requires f != bak && f.pos <= |f.data| && '\0' !in f.data
    modifies f`pos, bak`data
    ensures var s := old(f.Left());
            && end == (s == "") && f.Left() == Rest(s) && old(f.pos) <= f.pos <= |f.data|
            && (!end ==> old(f.pos) < f.pos && hit == (Classify(First(s)) == Header(section)))
            && (end ==> f.Left() == "")
            && bak.data == old(bak.data) + Copy(copying, First(s))
  {
    ghost var s := f.Left();
    hide Classify, First, Rest, Until, CString;
    var buf := new char[ETC_MAXLINE + 2];
    var n := f.ReadLine(buf);
    hit, end := false, n == 0;
    if end {
      return;
    }
    if copying {
      bak.Append(buf[..n]);
    }
    assert buf[..n] == First(s);
    var found, name := GetSectionName(buf, First(s));
    hit := found && CString(buf[..], name) == section;
  }

  lemma CopyMore(old': string, copying: bool, a: string, b: string)
    ensures (old' + Copy(copying, a)) + Copy(copying, b) == old' + Copy(copying, a + b)
  {
    if !copying {
      assert old' + "" + "" == old' + "";
    } else {
      assert (old' + a) + b == old' + (a + b);
    }
  }

  /** The search so far, and the search that is left. */
  lemma SectionStep(s: string, section: string, done: string)
    requires s != ""
    ensures var p := Prepend(done, LocateSection(s, section));
            if Classify(First(s)) == Header(section) then p == Place(ETC_OK, "", done + First(s), Rest(s))
            else p == Prepend(done + First(s), LocateSection(Rest(s), section))
  {
    hide Classify, First, Rest;
    var p := LocateSection(Rest(s), section);
    ConcatAssociates(done, First(s), p.copied);
  }

  /** `co_etc_LocateSection`; the lines read are copied if there is a second file. */
  method LocateSectionIn(f: TextFile, section: string, copying: bool, bak: TextFile) returns (status: int)
    requires f != bak && f.pos <= |f.data| && '\0' !in f.data
    modifies f`pos, bak`data
    ensures var p := LocateSection(old(f.Left()), section);
            && status == p.status && f.pos <= |f.data| && f.Left() == p.rest
            && bak.data == old(bak.data) + Copy(copying, p.copied)
  {
    hide Classify, First, Rest, Copy, Prepend, LocateSection;
    ghost var done := "";
    ghost var goal := LocateSection(f.Left(), section);
    SectionStart(goal, bak.data, copying);
    while true
      invariant f.pos <= |f.data| && f.data == old(f.data) && bak.data == old(bak.data) + Copy(copying, done)
      invariant goal == Prepend(done, LocateSection(f.Left(), section))
      decreases |f.data| - f.pos
    {
      ghost var s := f.Left();
      var end, hit := SectionLine(f, section, copying, bak);
      if end {
        SectionEnd(done, section);
        return ETC_SECTIONNOTFOUND;
      }
      SectionStep(s, section, done);
      CopyMore(old(bak.data), copying, done, First(s));
      done := done + First(s);
      if hit {
        return ETC_OK;
      }
    }
  }

  lemma SectionStart(p: Place, text: string, copying: bool)
    ensures Prepend("", p) == p && text + Copy(copying, "") == text
  {
  }

  lemma SectionEnd(done: string, section: string)
    ensures Prepend(done, LocateSection("", section)) == Place(ETC_SECTIONNOTFOUND, "", done, "")
  {
  }

  /** The key of one line, and what to do about it. */
  datatype Line = EndOfFile | Skip | Section | Key(name: string, value: string)

  function LineAt(s: string): Line {
    if s == "" then EndOfFile
    else match Classify(First(s)) case Junk => Skip case Header(_) => Section case Entry(k, v) => Key(k, v)
  }

  /** `co_etc_LocateKeyValue`: one line; a header is given back to the file. */
  method KeyLine(f: TextFile) returns (line: Line)
    requires f.pos <= |f.data| && '\0' !in f.data
    modifies f`pos
    ensures old(f.pos) <= f.pos <= |f.data| && line == LineAt(old(f.Left()))
    ensures f.Left() == if line.Section? then old(f.Left()) else Rest(old(f.Left()))
    ensures line.Skip? || line.Key? ==> old(f.pos) < f.pos
    ensures line.EndOfFile? ==> f.Left() == ""
  {
    ghost var s := f.Left();
    hide Classify, First, Rest, Until, CString;
    var buf := new char[ETC_MAXLINE + 2];
    var n := f.ReadLine(buf);
    if n == 0 {
      return EndOfFile;
    }
    ghost var l := First(s);
    if buf[n - 1] == '\n' || buf[n - 1] == '\r' {
      assert l == l[..n - 1] + [l[n - 1]];
      ClassifyIgnoresEnd(l[..n - 1], l[n - 1]);
      l := l[..n - 1];
      buf[n - 1] := '\0';
    }
    var front := new char[1];   // what happens to be in front of the buffer
    var ret, key, value := GetKeyValue(buf, front, l);
    if ret < 0 {
      return Skip;
    }
    if ret > 0 {
      f.pos := f.pos - n;
      return Section;
    }
    line := Key(CString(buf[..], key), CString(buf[..], value));
  }

  lemma KeyStep(s: string, key: string, done: string)
    ensures var p := Prepend(done, LocateKey(s, key));
            match LineAt(s)
            case EndOfFile => p == Place(ETC_FILEIOFAILED, "", done, "")
            case Section => p == Place(ETC_KEYNOTFOUND, "", done, s)
            case Skip => p == Prepend(done, LocateKey(Rest(s), key))
            case Key(k, v) =>
              if k == key then p == Place(ETC_OK, v, done, Rest(s))
              else p == Prepend(if k == "" then done else done + EntryLine(k, v), LocateKey(Rest(s), key))
  {
    hide Classify, First, Rest, EntryLine;
    assert done + "" == done;
    if LineAt(s).Key? {
      ConcatAssociates(done, EntryLine(LineAt(s).name, LineAt(s).value), LocateKey(Rest(s), key).copied);
    }
  }

  /** `co_etc_LocateKeyValue`; the entries passed over are printed if there is a second file. */
  method LocateKeyIn(f: TextFile, key: string, copying: bool, bak: TextFile) returns (status: int, value: string)
    requires f != bak && f.pos <= |f.data| && '\0' !in f.data
    modifies f`pos, bak`data
    ensures var p := LocateKey(old(f.Left()), key);
            && status == p.status && value == p.value && f.pos <= |f.data| && f.Left() == p.rest
            && bak.data == old(bak.data) + Copy(copying, p.copied)
  {
    hide Classify, First, Rest, Copy, Prepend, LocateKey, LineAt, EntryLine;
    ghost var done := "";
    ghost var goal := LocateKey(f.Left(), key);
    SectionStart(goal, bak.data, copying);
    while true
      invariant f.pos <= |f.data| && f.data == old(f.data) && bak.data == old(bak.data) + Copy(copying, done)
      invariant goal == Prepend(done, LocateKey(f.Left(), key))
      decreases |f.data| - f.pos
    {
      ghost var s := f.Left();
      KeyStep(s, key, done);
      var line := KeyLine(f);
      match line {
        case EndOfFile => return ETC_FILEIOFAILED, "";
        case Section => return ETC_KEYNOTFOUND, "";
        case Skip =>
        case Key(k, v) =>
          if k == key {
            return ETC_OK, v;
          }
          if k != "" {
            PrintEntry(bak, copying, k, v);
            CopyMore(old(bak.data), copying, done, EntryLine(k, v));
            done := done + EntryLine(k, v);
          }
      }
    }
  }

  method PrintEntry(bak: TextFile, copying: bool, key: string, value: string)
    modifies bak`data
    ensures bak.data == old(bak.data) + Copy(copying, EntryLine(key, value))
  {
    if copying {
      bak.Append(key + "=" + value + "\n");
    } else {
      assert bak.data + "" == bak.data;
    }
  }

  /** A buffer after `strncpy` of `value` with room for `len` characters: cut there, or filled up with zeros. */
  function Copied(a: string, value: string, len: nat): (r: string)
    requires len <= |a|
    ensures |r| == |a|
  {
    (if |value| >= len then value[..len] else value + seq(len - |value|, _ => '\0')) + a[len..]
  }

  /** `strncpy` */
  method CopyValue(value: string, dst: array<char>, len: nat)
    requires len <= dst.Length
    modifies dst
    ensures dst[..] == Copied(old(dst[..]), value, len)
  {
    var i := 0;
    while i < len
      invariant i <= len
      invariant forall j :: 0 <= j < dst.Length ==> dst[j] == if j < i then (if j < |value| then value[j] else '\0') else old(dst[j])
    {
      dst[i] := if i < |value| then value[i] else '\0';
      i := i + 1;
    }
  }

  /** `co_GetValueFromEtcFile`; the caller's buffer is written only when the key was found. */
  method GetValue(f: TextFile, section: string, key: string, dst: array<char>, len: nat) returns (status: int)
    requires '\0' !in f.data && len <= dst.Length
    modifies f`pos, dst
    ensures status == if f.present then Get(f.data, section, key).0 else ETC_FILENOTFOUND
    ensures dst[..] == if status == ETC_OK then Copied(old(dst[..]), Get(f.data, section, key).1, len) else old(dst[..])
  {
    hide LocateSection, LocateKey, Copied;
    if !f.present {
      return ETC_FILENOTFOUND;
    }
    var none := new TextFile("");
    f.pos := 0;
    assert f.data[0..] == f.data;
    var rc := LocateSectionIn(f, section, false, none);
    if rc != ETC_OK {
      return ETC_SECTIONNOTFOUND;
    }
    var found, value := LocateKeyIn(f, key, false, none);
    if found != ETC_OK {
      return ETC_KEYNOTFOUND;
    }
    CopyValue(value, dst, len);
    status := ETC_OK;
  }

  lemma Pieces(a: string, b: string, c: string, d: string, e: string)
    ensures a + b + c + d + e == a + (b + (c + (d + e)))
  {
  }

  /** A section that was not there, printed behind everything else. */
  method PrintSection(tmp: TextFile, section: string, key: string, value: string)
    modifies tmp`data
    ensures tmp.data == old(tmp.data) + ("\n" + (HeaderLine(section) + EntryLine(key, value)))
  {
    hide HeaderLine, EntryLine;
    tmp.Append("\n");
    tmp.Append(HeaderLine(section));
    tmp.Append(EntryLine(key, value));
    Pieces(old(tmp.data), "\n", HeaderLine(section), EntryLine(key, value), "");
    assert HeaderLine(section) + (EntryLine(key, value) + "") == HeaderLine(section) + EntryLine(key, value);
  }

  /** The rest of the file from inside the section, with the key set. */
  method PrintRest(f: TextFile, tmp: TextFile, key: string, value: string)
    requires f != tmp && f.pos <= |f.data| && '\0' !in f.data
    modifies f`pos, tmp`data
    ensures tmp.data == old(tmp.data) + SetKey(old(f.Left()), key, value)
  {
    hide LocateKey, EntryLine;
    ghost var q := LocateKey(f.Left(), key);
    var found, _ := LocateKeyIn(f, key, true, tmp);
    tmp.Append(EntryLine(key, value));
    tmp.Append(if found == ETC_OK then "" else "\n");
    tmp.Append(f.Left());
    Pieces(old(tmp.data), q.copied, EntryLine(key, value), if q.status == ETC_OK then "" else "\n", q.rest);
  }

  /**
   * `co_SetValueToEtcFile`: everything goes to a temporary file, which is then copied back;
   * a file that does not exist is made with the one entry.
   */
  method SetValue(f: TextFile, section: string, key: string, value: string)
    requires '\0' !in f.data
    modifies f
    ensures f.present
    ensures f.data == if old(f.present) then Set(old(f.data), section, key, value) else HeaderLine(section) + EntryLine(key, value)
  {
    hide LocateSection, SetKey, EntryLine, HeaderLine;
    if !f.present {
      f.present, f.data, f.pos := true, HeaderLine(section) + EntryLine(key, value), 0;
      return;
    }
    var tmp := new TextFile("");
    f.pos := 0;
    assert f.data[0..] == f.data;
    var rc := LocateSectionIn(f, section, true, tmp);
    SectionReads(old(f.data), section);
    assert tmp.data == LocateSection(old(f.data), section).copied;
    if rc != ETC_OK {
      PrintSection(tmp, section, key, value);
    } else {
      PrintRest(f, tmp, key, value);
    }
    f.data, f.pos := tmp.data, 0;
  }
}
