/**
 * The configuration files: how one line is read, how a value is looked up, and how a file
 * is rewritten when a value is set. A file is its text; `fgets` cuts it into lines.
 */
module EtcFile {
  const ETC_MAXLINE: nat := 1024
  const ETC_FILENOTFOUND := -1
  const ETC_SECTIONNOTFOUND := -2
  const ETC_KEYNOTFOUND := -3
  const ETC_FILEIOFAILED := -5
  const ETC_OK := 0

  const BLANKS: set<char> := {' ', '\t'}
  const ENDS: set<char> := {'\n', '\r', '\0'}
  const NAMESTOPS: set<char> := {']', ';', '#', '\n', '\r', '\0'}
  const KEYSTOPS: set<char> := {'=', ';', '#', '\n', '\r', '\0'}

  // ----- one line -----

  datatype Item = Junk | Header(name: string) | Entry(key: string, value: string)

  function SkipBlanks(s: string): string {
    if s != "" && s[0] in BLANKS then SkipBlanks(s[1..]) else s
  }

  function Until(s: string, stops: set<char>): (r: string)
    ensures r <= s
  {
    if s == "" || s[0] in stops then "" else [s[0]] + Until(s[1..], stops)
  }

  function TrimRight(s: string): string {
    if s != "" && s[|s| - 1] in BLANKS then TrimRight(s[..|s| - 1]) else s
  }

  function ValueOf(rest: string): string {
    if rest != "" && rest[0] == '=' then Until(rest[1..], ENDS) else ""
  }

  /** `co_get_key_value` and `co_get_section_name`; blanks behind a section name are not trimmed. */
  function Classify(line: string): Item {
    var c := SkipBlanks(line);
    if c == "" || c[0] in {';', '#', '\n', '\r', '\0'} then Junk
    else if c[0] == '[' then Header(Until(SkipBlanks(c[1..]), NAMESTOPS))
    else
      var k := Until(c, KEYSTOPS);
      Entry(TrimRight(k), ValueOf(c[|k|..]))
  }

  /** `fprintf (fp, "%s=%s\n", …)` and `fprintf (fp, "[%s]\n", …)` */
  function EntryLine(key: string, value: string): string { key + "=" + value + "\n" }

  function HeaderLine(name: string): string { "[" + name + "]\n" }

  predicate Free(s: string, stops: set<char>) { forall i :: 0 <= i < |s| ==> s[i] !in stops }

  predicate KeyOk(key: string) {
    && key != "" && key[0] !in BLANKS && key[0] != '[' && key[|key| - 1] !in BLANKS
    && Free(key, KEYSTOPS)
  }

  predicate ValueOk(value: string) { Free(value, ENDS) }

  predicate SectionOk(name: string) { Free(name, NAMESTOPS) && (name != "" ==> name[0] !in BLANKS) }

  lemma {:induction false} UntilIsFree(s: string, stops: set<char>)
    ensures Free(Until(s, stops), stops)
    ensures var k := |Until(s, stops)|; k == |s| || s[k] in stops
  {
    if s != "" && s[0] !in stops {
      UntilIsFree(s[1..], stops);
    }
  }

  lemma {:induction false} UntilFinds(a: string, b: string, stops: set<char>)
    requires Free(a, stops) && (b == "" || b[0] in stops)
    ensures Until(a + b, stops) == a
  {
    if a == "" {
      assert a + b == b;
    } else {
      assert (a + b)[1..] == a[1..] + b;
      UntilFinds(a[1..], b, stops);
    }
  }

  lemma {:induction false} SkipsToVisible(s: string)
    ensures SkipBlanks(s) == "" || SkipBlanks(s)[0] !in BLANKS
    ensures |SkipBlanks(s)| <= |s|
  {
    if s != "" && s[0] in BLANKS {
      SkipsToVisible(s[1..]);
    }
  }

  lemma {:induction false} TrimIsPrefix(s: string)
    ensures TrimRight(s) <= s
    ensures TrimRight(s) != "" ==> TrimRight(s)[|TrimRight(s)| - 1] !in BLANKS
  {
    if s != "" && s[|s| - 1] in BLANKS {
      TrimIsPrefix(s[..|s| - 1]);
    }
  }

  /** Whatever is read as an entry could have been written as one. */
  lemma EntriesAreOk(line: string)
    requires Classify(line).Entry?
    ensures Classify(line).key != "" ==> KeyOk(Classify(line).key)
    ensures ValueOk(Classify(line).value)
    ensures |Classify(line).key| + |Classify(line).value| <= |line|
  {
    var c := SkipBlanks(line);
    SkipsToVisible(line);
    var k := Until(c, KEYSTOPS);
    UntilIsFree(c, KEYSTOPS);
    TrimIsPrefix(k);
    var rest := c[|k|..];
    if rest != "" && rest[0] == '=' {
      UntilIsFree(rest[1..], ENDS);
    }
    hide SkipBlanks, Until, TrimRight;
  }

  lemma HeadersAreOk(line: string)
    requires Classify(line).Header?
    ensures SectionOk(Classify(line).name)
  {
    var t := SkipBlanks(SkipBlanks(line)[1..]);
    SkipsToVisible(SkipBlanks(line)[1..]);
    UntilIsFree(t, NAMESTOPS);
    hide SkipBlanks, Until;
  }

  /** Printing an entry and reading the line back, for exactly the keys and values that survive it. */
  lemma EntryRoundTrip(key: string, value: string)
    requires key != ""
    ensures Classify(EntryLine(key, value)) == Entry(key, value) <==> KeyOk(key) && ValueOk(value)
  {
    var line := EntryLine(key, value);
    if KeyOk(key) && ValueOk(value) {
      assert line == key + ("=" + value + "\n");
      assert SkipBlanks(line) == line && line[0] == key[0];
      UntilFinds(key, "=" + value + "\n", KEYSTOPS);
      assert line[|key|..] == "=" + value + "\n" && line[|key|..][1..] == value + "\n";
      UntilFinds(value, "\n", ENDS);
      assert TrimRight(key) == key;
      hide SkipBlanks, Until, TrimRight;
    } else if Classify(line) == Entry(key, value) {
      EntriesAreOk(line);
    }
  }

  lemma HeaderRoundTrip(name: string)
    ensures Classify(HeaderLine(name)) == Header(name) <==> SectionOk(name)
  {
    var line := HeaderLine(name);
    if SectionOk(name) {
      assert line == "[" + (name + "]\n") && line[1..] == name + "]\n";
      assert SkipBlanks(line) == line && SkipBlanks(line[1..]) == line[1..];
      UntilFinds(name, "]\n", NAMESTOPS);
      hide SkipBlanks, Until;
    } else if Classify(line) == Header(name) {
      HeadersAreOk(line);
    }
  }

  // ----- a line, piece by piece -----

  predicate IsBlank(c: char) { c == ' ' || c == '\t' }

  predicate Blank(s: string) { forall i :: 0 <= i < |s| ==> IsBlank(s[i]) }

  /** None of these characters, nor the end of a line or a zero, is in it. */
  predicate Lacks(s: string, stops: string) {
    forall i :: 0 <= i < |s| ==> s[i] !in stops && s[i] != '\n' && s[i] != '\r' && s[i] != '\0'
  }

  predicate Ends(s: string) { s == "" || s[0] == '\n' || s[0] == '\r' || s[0] == '\0' }

  lemma {:induction false} BlanksAreSkipped(a: string, b: string)
    requires Blank(a) && (b == "" || !IsBlank(b[0]))
    ensures SkipBlanks(a + b) == b
  {
    if a == "" {
      assert a + b == b;
    } else {
      assert (a + b)[1..] == a[1..] + b;
      BlanksAreSkipped(a[1..], b);
    }
  }

  lemma {:induction false} BlanksAreTrimmed(a: string, b: string)
    requires Blank(b) && (a == "" || !IsBlank(a[|a| - 1]))
    ensures TrimRight(a + b) == a
    decreases |b|
  {
    if b == "" {
      assert a + b == a;
    } else {
      var n := |b| - 1;
      assert (a + b)[..|a + b| - 1] == a + b[..n] && (a + b)[|a + b| - 1] == b[n];
      BlanksAreTrimmed(a, b[..n]);
    }
  }

  lemma NoStops(key: string, post: string)
    requires Lacks(key, "=;#") && Blank(post)
    ensures Free(key + post, KEYSTOPS)
  {
    var s := key + post;
    forall i | 0 <= i < |s| ensures s[i] !in KEYSTOPS {
      assert if i < |key| then s[i] == key[i] else s[i] == post[i - |key|] && IsBlank(post[i - |key|]);
    }
  }

  /**
   * Blanks in front of a key and behind it do not belong to it; the value begins right behind the `=` and goes on
   * to the end of the line.
   */
  lemma EntryIsRead(pre: string, key: string, post: string, value: string, tail: string)
    requires Blank(pre) && Blank(post) && Ends(tail) && Lacks(key, "=;#") && Lacks(value, "")
    requires key != "" && key[0] != '[' && !IsBlank(key[0]) && !IsBlank(key[|key| - 1])
    ensures Classify(pre + key + post + "=" + value + tail) == Entry(key, value)
  {
    var rest := "=" + value + tail;
    assert pre + key + post + "=" + value + tail == pre + (key + post + rest);
    BlanksAreSkipped(pre, key + post + rest);
    NoStops(key, post);
    UntilFinds(key + post, rest, KEYSTOPS);
    BlanksAreTrimmed(key, post);
    assert (key + post + rest)[|key + post|..] == rest && rest[1..] == value + tail;
    UntilFinds(value, tail, ENDS);
    hide SkipBlanks, Until, TrimRight;
  }

  /**
   * Blanks are allowed in front of a bracket and behind it, and the name goes on to the closing bracket, a
   * comment, or the end.
   */
  lemma HeaderIsRead(pre: string, mid: string, name: string, tail: string)
    requires Blank(pre) && Blank(mid) && Lacks(name, "];#") && (name == "" || !IsBlank(name[0]))
    requires Ends(tail) || tail[0] in "];#"
    ensures Classify(pre + "[" + mid + name + tail) == Header(name)
  {
    assert pre + "[" + mid + name + tail == pre + ("[" + mid + name + tail);
    BlanksAreSkipped(pre, "[" + mid + name + tail);
    assert ("[" + mid + name + tail)[1..] == mid + (name + tail);
    BlanksAreSkipped(mid, name + tail);
    UntilFinds(name, tail, NAMESTOPS);
    hide SkipBlanks, Until;
  }

  /** Comments, and lines that end before anything visible, are passed over. */
  lemma CommentIsJunk(pre: string, tail: string)
    requires Blank(pre) && (Ends(tail) || tail[0] == ';' || tail[0] == '#')
    ensures Classify(pre + tail) == Junk
  {
    BlanksAreSkipped(pre, tail);
  }

  // ----- reading a file line by line -----

  function LineLength(s: string, room: nat): (n: nat)
    ensures n <= |s| && n <= room
    ensures s != "" && room > 0 ==> n > 0
  {
    if s == "" || room == 0 then 0 else if s[0] == '\n' then 1 else 1 + LineLength(s[1..], room - 1)
  }

  /** What `fgets (buf, ETC_MAXLINE, fp)` returns from the remaining text, and what it leaves. */
  function First(s: string): (l: string)
    ensures s != "" ==> l != ""
  {
    s[..LineLength(s, ETC_MAXLINE - 1)]
  }

  function Rest(s: string): (r: string)
    ensures s != "" ==> |r| < |s|
    ensures First(s) + r == s
  {
    s[LineLength(s, ETC_MAXLINE - 1)..]
  }

  /**
   * Where a search stopped: its code, the value it found, what it copied to the other file, and the text not yet
   * read.
   */
  datatype Place = Place(status: int, value: string, copied: string, rest: string)

  /** `co_etc_LocateSection`: every line read is copied. */
  function LocateSection(s: string, section: string): Place
    decreases |s|
  {
    if s == "" then Place(ETC_SECTIONNOTFOUND, "", "", "")
    else if Classify(First(s)) == Header(section) then Place(ETC_OK, "", First(s), Rest(s))
    else
      var p := LocateSection(Rest(s), section);
      p.(copied := First(s) + p.copied)
  }

  /** `co_etc_LocateKeyValue`: the entries passed over are printed again, everything else is dropped. */
  function LocateKey(s: string, key: string): Place
    decreases |s|
  {
    if s == "" then Place(ETC_FILEIOFAILED, "", "", "")
    else
      match Classify(First(s))
      case Junk => LocateKey(Rest(s), key)
      case Header(_) => Place(ETC_KEYNOTFOUND, "", "", s)
      case Entry(k, v) =>
        if k == key then Place(ETC_OK, v, "", Rest(s))
        else
          var p := LocateKey(Rest(s), key);
          if k == "" then p else p.(copied := EntryLine(k, v) + p.copied)
  }

  /** `co_GetValueFromEtcFile` on a file with this text */
  function Get(s: string, section: string, key: string): (int, string) {
    var p := LocateSection(s, section);
    if p.status != ETC_OK then (ETC_SECTIONNOTFOUND, "")
    else
      var q := LocateKey(p.rest, key);
      if q.status != ETC_OK then (ETC_KEYNOTFOUND, "") else (ETC_OK, q.value)
  }

  /**
   * The section's text with `key` set: entries passed over are printed again, the new one is printed, the rest is
   * copied.
   */
  function SetKey(s: string, key: string, value: string): string {
    var q := LocateKey(s, key);
    q.copied + (EntryLine(key, value) + ((if q.status == ETC_OK then "" else "\n") + q.rest))
  }

  /** `co_SetValueToEtcFile`: the text of the file that replaces one with text `s`. */
  function Set(s: string, section: string, key: string, value: string): string {
    var p := LocateSection(s, section);
    if p.status != ETC_OK then p.copied + ("\n" + (HeaderLine(section) + EntryLine(key, value)))
    else p.copied + SetKey(p.rest, key, value)
  }

  // ----- what a file says -----

  /** The headers and entries of a file, in order. */
  function ItemsOf(s: string): seq<Item>
    decreases |s|
  {
    if s == "" then []
    else (if Classify(First(s)) == Junk then [] else [Classify(First(s))]) + ItemsOf(Rest(s))
  }

  function AfterSection(items: seq<Item>, section: string): (r: seq<Item>)
    ensures |r| <= |items|
    decreases |items|
  {
    if items == [] then []
    else if items[0] == Header(section) then items[1..]
    else AfterSection(items[1..], section)
  }

  predicate HasSection(items: seq<Item>, section: string) { Header(section) in items }

  function Lookup(items: seq<Item>, key: string): (int, string)
    decreases |items|
  {
    if items == [] || items[0].Header? then (ETC_KEYNOTFOUND, "")
    else if items[0].Entry? && items[0].key == key then (ETC_OK, items[0].value)
    else Lookup(items[1..], key)
  }

  /** The section's entries with `key` set, up to where the search for it stopped. */
  function Update(items: seq<Item>, key: string, value: string): seq<Item>
    decreases |items|
  {
    if items == [] || items[0].Header? then [Entry(key, value)] + items
    else if items[0].Entry? && items[0].key == key then [Entry(key, value)] + items[1..]
    else (if items[0].Entry? && items[0].key != "" then [items[0]] else []) + Update(items[1..], key, value)
  }

  function SetItem(items: seq<Item>, section: string, key: string, value: string): seq<Item>
    decreases |items|
  {
    if items == [] then [Header(section), Entry(key, value)]
    else if items[0] == Header(section) then [items[0]] + Update(items[1..], key, value)
    else [items[0]] + SetItem(items[1..], section, key, value)
  }

  /** A search through the text is a search through its items. */
  lemma {:induction false} LookupReads(s: string, key: string)
    ensures var p := LocateKey(s, key);
            Lookup(ItemsOf(s), key) == if p.status == ETC_OK then (ETC_OK, p.value) else (ETC_KEYNOTFOUND, "")
    decreases |s|
  {
    hide Classify, First, Rest, EntryLine;
    if s != "" {
      LookupReads(Rest(s), key);
      var c := Classify(First(s));
      if c != Junk {
        assert ItemsOf(s)[1..] == ItemsOf(Rest(s));
      } else {
        assert ItemsOf(s) == ItemsOf(Rest(s));
      }
    }
  }

  lemma {:induction false} SectionReads(s: string, section: string)
    ensures HasSection(ItemsOf(s), section) <==> LocateSection(s, section).status == ETC_OK
    ensures LocateSection(s, section).status == ETC_OK ==> AfterSection(ItemsOf(s), section) == ItemsOf(LocateSection(s, section).rest)
    ensures LocateSection(s, section).status in {ETC_OK, ETC_SECTIONNOTFOUND}
    ensures LocateSection(s, section).status != ETC_OK ==> LocateSection(s, section).copied == s && LocateSection(s, section).rest == ""
    decreases |s|
  {
    hide Classify, First, Rest;
    if s != "" {
      SectionReads(Rest(s), section);
      var c := Classify(First(s));
      if c != Junk {
        assert ItemsOf(s) == [c] + ItemsOf(Rest(s)) && ItemsOf(s)[1..] == ItemsOf(Rest(s));
      } else {
        assert ItemsOf(s) == ItemsOf(Rest(s));
      }
    }
  }

  function GetItem(items: seq<Item>, section: string, key: string): (int, string) {
    if HasSection(items, section) then Lookup(AfterSection(items, section), key) else (ETC_SECTIONNOTFOUND, "")
  }

  /** The first header of the section. */
  ghost predicate FirstHeader(items: seq<Item>, section: string, i: int) {
    0 <= i < |items| && items[i] == Header(section) && forall k :: 0 <= k < i ==> items[k] != Header(section)
  }

  /** The first entry with this key, with no header in front of it. */
  ghost predicate FirstKey(items: seq<Item>, key: string, j: int) {
    && 0 <= j < |items| && items[j].Entry? && items[j].key == key
    && forall k :: 0 <= k < j ==> !items[k].Header? && !(items[k].Entry? && items[k].key == key)
  }

  /** The value at `j` is the one of this section and key, whose header is at `i`. */
  ghost predicate IsAt(items: seq<Item>, section: string, key: string, i: int, j: int) {
    FirstHeader(items, section, i) && FirstKey(items[i + 1..], key, j - i - 1)
  }

  lemma {:induction false} LookupFinds(items: seq<Item>, key: string)
    ensures Lookup(items, key).0 == 0 <==> exists j :: FirstKey(items, key, j)
    ensures forall j :: FirstKey(items, key, j) ==> Lookup(items, key) == (0, items[j].value)
    ensures Lookup(items, key).0 in {0, -3}
    decreases |items|
  {
    if items != [] && !items[0].Header? {
      var rest := items[1..];
      if items[0].Entry? && items[0].key == key {
        assert FirstKey(items, key, 0);
      } else {
        LookupFinds(rest, key);
        assert forall j :: FirstKey(items, key, j) ==> FirstKey(rest, key, j - 1);
        forall j | FirstKey(rest, key, j) ensures FirstKey(items, key, j + 1) {
          assert forall k :: 0 < k < j + 1 ==> items[k] == rest[k - 1];
        }
      }
    }
  }

  lemma {:induction false} HeaderFinds(items: seq<Item>, section: string, i: int)
    requires FirstHeader(items, section, i)
    ensures Header(section) in items && AfterSection(items, section) == items[i + 1..]
    decreases i
  {
    if i > 0 {
      HeaderFinds(items[1..], section, i - 1);
    }
  }

  lemma {:induction false} SomeHeaderIsFirst(items: seq<Item>, section: string) returns (i: int)
    requires Header(section) in items
    ensures FirstHeader(items, section, i)
    decreases |items|
  {
    if items[0] == Header(section) {
      i := 0;
    } else {
      assert items == [items[0]] + items[1..];
      i := SomeHeaderIsFirst(items[1..], section);
      i := i + 1;
    }
  }

  /**
   * A value is found exactly if the first header of the section has an entry with the key behind it, in front of
   * any other header, and it is the value of the first of these. The code is -2 exactly if there is no such header.
   */
  lemma FoundExactlyIf(items: seq<Item>, section: string, key: string)
    ensures GetItem(items, section, key).0 == 0 <==> exists i, j :: IsAt(items, section, key, i, j)
    ensures forall i, j :: IsAt(items, section, key, i, j) ==> GetItem(items, section, key) == (0, items[j].value)
    ensures GetItem(items, section, key).0 == -2 <==> Header(section) !in items
    ensures GetItem(items, section, key).0 in {0, -2, -3}
  {
    hide Lookup, AfterSection;
    forall i, j | IsAt(items, section, key, i, j) ensures GetItem(items, section, key) == (0, items[j].value) {
      HeaderFinds(items, section, i);
      LookupFinds(items[i + 1..], key);
    }
    if Header(section) in items {
      var i := SomeHeaderIsFirst(items, section);
      HeaderFinds(items, section, i);
      LookupFinds(items[i + 1..], key);
      if Lookup(items[i + 1..], key).0 == 0 {
        var j :| FirstKey(items[i + 1..], key, j);
        assert IsAt(items, section, key, i, i + 1 + j);
      }
    }
  }

  lemma GetReads(s: string, section: string, key: string)
    ensures Get(s, section, key) == GetItem(ItemsOf(s), section, key)
  {
    hide HasSection;
    SectionReads(s, section);
    LookupReads(LocateSection(s, section).rest, key);
  }

  // ----- setting and getting, on items -----

  lemma {:induction false} LookupAfterUpdate(items: seq<Item>, key: string, value: string, other: string)
    requires other != ""
    ensures Lookup(Update(items, key, value), other) == if other == key then (ETC_OK, value) else Lookup(items, other)
    decreases |items|
  {
    var u := Update(items, key, value);
    if items == [] || items[0].Header? {
      assert u[1..] == items;
    } else if items[0].Entry? && items[0].key == key {
      assert u[1..] == items[1..];
    } else {
      LookupAfterUpdate(items[1..], key, value, other);
      if items[0].Entry? && items[0].key != "" {
        assert u[1..] == Update(items[1..], key, value);
      } else {
        assert u == Update(items[1..], key, value);
      }
    }
  }

  lemma {:induction false} SectionAfterUpdate(items: seq<Item>, key: string, value: string, section: string)
    ensures HasSection(Update(items, key, value), section) == HasSection(items, section)
    ensures AfterSection(Update(items, key, value), section) == AfterSection(items, section)
    decreases |items|
  {
    var u := Update(items, key, value);
    if items == [] || items[0].Header? {
      assert u[1..] == items;
    } else if items[0].Entry? && items[0].key == key {
      assert u[1..] == items[1..] && items == [items[0]] + items[1..];
    } else {
      SectionAfterUpdate(items[1..], key, value, section);
      assert items == [items[0]] + items[1..];
      if items[0].Entry? && items[0].key != "" {
        assert u[1..] == Update(items[1..], key, value);
      } else {
        assert u == Update(items[1..], key, value);
      }
    }
  }

  /** Up to the next header a file is changed only inside the section that is set. */
  lemma {:induction false} LookupAfterSet(items: seq<Item>, section: string, key: string, value: string, other: string)
    ensures Lookup(SetItem(items, section, key, value), other) == Lookup(items, other)
    decreases |items|
  {
    if items != [] && !items[0].Header? {
      LookupAfterSet(items[1..], section, key, value, other);
      assert SetItem(items, section, key, value)[1..] == SetItem(items[1..], section, key, value);
    }
  }

  /** The set/get law on items; only the code for another key of a section that did not exist changes. */
  lemma {:induction false} SetItemLaw(items: seq<Item>, section: string, key: string, value: string, s: string, k: string)
    requires key != "" && k != ""
    ensures GetItem(SetItem(items, section, key, value), s, k) ==
              if s == section && k == key then (ETC_OK, value)
              else if s == section && !HasSection(items, section) then (ETC_KEYNOTFOUND, "")
              else GetItem(items, s, k)
    decreases |items|
  {
    var n := SetItem(items, section, key, value);
    if items == [] {
      var e := [Entry(key, value)];
      assert n[0] == Header(section) && n[1..] == e && e[1..] == [];
      assert Lookup(e, k) == if k == key then (ETC_OK, value) else (ETC_KEYNOTFOUND, "");
      assert HasSection(n, s) <==> s == section;
    } else {
      assert items == [items[0]] + items[1..];
      if items[0] == Header(section) {
        assert n[1..] == Update(items[1..], key, value);
        LookupAfterUpdate(items[1..], key, value, k);
        SectionAfterUpdate(items[1..], key, value, s);
      } else {
        assert n[1..] == SetItem(items[1..], section, key, value);
        SetItemLaw(items[1..], section, key, value, s, k);
        LookupAfterSet(items[1..], section, key, value, k);
      }
    }
  }

  // ----- setting and getting, on text -----

  /** A whole line, short enough for the buffer. */
  predicate Whole(l: string) {
    && 0 < |l| < ETC_MAXLINE && l[|l| - 1] == '\n'
    && forall i :: 0 <= i < |l| - 1 ==> l[i] != '\n'
  }

  predicate Open(l: string) { forall i :: 0 <= i < |l| ==> l[i] != '\n' }

  /**
   * A text file of short lines: only the last one may lack its newline, and no line is so long that printing it
   * again breaks it.
   */
  predicate Readable(s: string)
    decreases |s|
  {
    s == "" || (|First(s)| <= 1021 && '\0' !in First(s) && Readable(Rest(s)))
  }

  lemma {:induction false} LineLengthIs(s: string, room: nat)
    ensures var n := LineLength(s, room);
            && (forall i :: 0 <= i < n - 1 ==> s[i] != '\n')
            && (n < room && n < |s| ==> n > 0 && s[n - 1] == '\n')
  {
    if s != "" && room > 0 && s[0] != '\n' {
      LineLengthIs(s[1..], room - 1);
    }
  }

  /** The next line goes up to its newline, or is cut after 1023 characters, or ends with the file. */
  lemma FirstIs(s: string)
    ensures |First(s)| <= 1023 && '\n' !in First(s)[..if s == "" then 0 else |First(s)| - 1]
    ensures |First(s)| == 1023 || (s != "" && First(s)[|First(s)| - 1] == '\n') || Rest(s) == ""
  {
    LineLengthIs(s, ETC_MAXLINE - 1);
    hide LineLength;
  }

  lemma FirstIsWhole(s: string)
    requires s != "" && |First(s)| <= 1021
    ensures Whole(First(s)) || (Open(First(s)) && Rest(s) == "")
  {
    LineLengthIs(s, ETC_MAXLINE - 1);
    hide LineLength;
  }

  lemma OpenIsLast(s: string)
    requires s != "" && |First(s)| <= 1021 && Open(First(s))
    ensures Rest(s) == "" && First(s) == s
  {
    FirstIsWhole(s);
    assert First(s) + Rest(s) == s;
    hide First, Rest;
  }

  lemma OpenIsClosed(l: string)
    requires Open(l) && |l| <= 1021
    ensures Whole(l + "\n")
  {
  }

  lemma {:induction false} LineLengthOf(l: string, t: string, room: nat)
    requires l != "" && l[|l| - 1] == '\n' && |l| <= room && forall i :: 0 <= i < |l| - 1 ==> l[i] != '\n'
    ensures LineLength(l + t, room) == |l|
  {
    if |l| > 1 {
      assert (l + t)[1..] == l[1..] + t;
      LineLengthOf(l[1..], t, room - 1);
    }
  }

  /** A whole line in front of any text is read first. */
  lemma WholeIsRead(l: string, t: string)
    requires Whole(l)
    ensures First(l + t) == l && Rest(l + t) == t
    ensures ItemsOf(l + t) == (if Classify(l) == Junk then [] else [Classify(l)]) + ItemsOf(t)
  {
    LineLengthOf(l, t, ETC_MAXLINE - 1);
    hide Classify, LineLength;
    assert First(l + t) == l && Rest(l + t) == t;
    assert l + t != "";
  }

  lemma EntryLineIsWhole(key: string, value: string)
    requires KeyOk(key) && ValueOk(value) && |key| + |value| <= 1021
    ensures Whole(EntryLine(key, value))
    ensures Classify(EntryLine(key, value)) == Entry(key, value)
  {
    hide Classify;
    EntryRoundTrip(key, value);
  }

  lemma HeaderLineIsWhole(name: string)
    requires SectionOk(name) && |name| <= 1020
    ensures Whole(HeaderLine(name))
    ensures Classify(HeaderLine(name)) == Header(name)
  {
    hide Classify;
    HeaderRoundTrip(name);
  }

  lemma {:induction false} SkipBlanksOfLine(l: string, e: char)
    requires e !in BLANKS
    ensures SkipBlanks(l + [e]) == SkipBlanks(l) + [e]
  {
    if l != "" && l[0] in BLANKS {
      assert (l + [e])[1..] == l[1..] + [e];
      SkipBlanksOfLine(l[1..], e);
    }
  }

  lemma {:induction false} UntilOfLine(l: string, e: char, stops: set<char>)
    requires e in stops
    ensures Until(l + [e], stops) == Until(l, stops)
  {
    if l != "" {
      assert (l + [e])[1..] == l[1..] + [e];
      UntilOfLine(l[1..], e, stops);
    }
  }

  lemma ValueIgnoresEnd(rest: string, e: char)
    requires e in {'\n', '\r'}
    ensures ValueOf(rest + [e]) == ValueOf(rest)
  {
    if rest != "" {
      assert (rest + [e])[1..] == rest[1..] + [e];
      UntilOfLine(rest[1..], e, ENDS);
    }
    hide Until;
  }

  /** A newline at its end, or a carriage return, does not change what a line says. */
  lemma ClassifyIgnoresEnd(l: string, e: char)
    requires e in {'\n', '\r'}
    ensures Classify(l + [e]) == Classify(l)
  {
    hide SkipBlanks, Until, TrimRight, ValueOf;
    SkipBlanksOfLine(l, e);
    var c := SkipBlanks(l);
    if c != "" {
      if c[0] == '[' {
        assert (c + [e])[1..] == c[1..] + [e];
        SkipBlanksOfLine(c[1..], e);
        UntilOfLine(SkipBlanks(c[1..]), e, NAMESTOPS);
      } else {
        UntilOfLine(c, e, KEYSTOPS);
        var k := |Until(c, KEYSTOPS)|;
        assert (c + [e])[k..] == c[k..] + [e];
        ValueIgnoresEnd(c[k..], e);
      }
    }
  }

  /** Setting a key rewrites the items of its section as it should. */
  lemma {:induction false} SetKeyWrites(s: string, key: string, value: string)
    requires Readable(s) && KeyOk(key) && ValueOk(value) && |key| + |value| <= 1021
    ensures ItemsOf(SetKey(s, key, value)) == Update(ItemsOf(s), key, value)
    decreases |s|
  {
    hide Classify, Whole, EntryLine, KeyOk, ValueOk;
    EntryLineIsWhole(key, value);
    if s == "" {
      SetKeyStops(s, key, value);
    } else {
      var c := Classify(First(s));
      if c.Header? || (c.Entry? && c.key == key) {
        SetKeyStops(s, key, value);
      } else {
        SetKeyWrites(Rest(s), key, value);
        SetKeyPasses(s, key, value);
      }
    }
  }

  lemma SetKeyStops(s: string, key: string, value: string)
    requires Whole(EntryLine(key, value)) && Classify(EntryLine(key, value)) == Entry(key, value)
    requires s == "" || Classify(First(s)).Header? || (Classify(First(s)).Entry? && Classify(First(s)).key == key)
    ensures ItemsOf(SetKey(s, key, value)) == Update(ItemsOf(s), key, value)
  {
    hide Classify, EntryLine, Whole, First, Rest;
    var q := LocateKey(s, key);
    var tail := (if q.status == ETC_OK then "" else "\n") + q.rest;
    assert SetKey(s, key, value) == EntryLine(key, value) + tail;
    if q.status != ETC_OK {
      NewlineIsJunk(s);
    } else {
      assert tail == q.rest == Rest(s) && ItemsOf(s) == [Classify(First(s))] + ItemsOf(Rest(s));
    }
    hide SetKey, LocateKey;
    WholeIsRead(EntryLine(key, value), tail);
  }

  lemma NewlineIsJunk(t: string)
    ensures ItemsOf("\n" + t) == ItemsOf(t)
  {
    assert Whole("\n");
    WholeIsRead("\n", t);
  }

  lemma SetKeyPasses(s: string, key: string, value: string)
    requires s != "" && |First(s)| <= 1021
    requires var c := Classify(First(s)); c.Junk? || (c.Entry? && c.key != key)
    requires ItemsOf(SetKey(Rest(s), key, value)) == Update(ItemsOf(Rest(s)), key, value)
    ensures ItemsOf(SetKey(s, key, value)) == Update(ItemsOf(s), key, value)
  {
    hide Classify, EntryLine, Whole, First, Rest, KeyOk, ValueOk;
    var c := Classify(First(s));
    var r := Rest(s);
    if c.Entry? {
      EntriesAreOk(First(s));
      assert ItemsOf(s)[0] == c && ItemsOf(s)[1..] == ItemsOf(r);
      if c.key != "" {
        EntryLineIsWhole(c.key, c.value);
        WholeIsRead(EntryLine(c.key, c.value), SetKey(r, key, value));
        assert SetKey(s, key, value) == EntryLine(c.key, c.value) + SetKey(r, key, value);
      }
    } else {
      assert ItemsOf(s) == ItemsOf(r);
    }
  }

  /** The file ends inside the line that opens the section, before its newline. */
  predicate CutOff(s: string, section: string)
    decreases |s|
  {
    s != "" && if Classify(First(s)) == Header(section) then Open(First(s)) else CutOff(Rest(s), section)
  }

  predicate Settable(section: string, key: string, value: string) {
    SectionOk(section) && KeyOk(key) && ValueOk(value) && |section| <= 1020 && |key| + |value| <= 1021
  }

  lemma NewSection(section: string, key: string, value: string)
    requires Settable(section, key, value)
    ensures ItemsOf(HeaderLine(section) + EntryLine(key, value)) == [Header(section), Entry(key, value)]
  {
    hide Classify, EntryLine, HeaderLine, Whole, SectionOk, KeyOk, ValueOk;
    HeaderLineIsWhole(section);
    EntryLineIsWhole(key, value);
    WholeIsRead(EntryLine(key, value), "");
    assert EntryLine(key, value) + "" == EntryLine(key, value);
    WholeIsRead(HeaderLine(section), EntryLine(key, value));
  }

  lemma SetPasses(s: string, section: string, key: string, value: string)
    requires s != "" && Classify(First(s)) != Header(section)
    ensures Set(s, section, key, value) == First(s) + Set(Rest(s), section, key, value)
  {
    hide Classify, First, Rest, SetKey, EntryLine, HeaderLine;
  }

  lemma SetOpens(s: string, section: string, key: string, value: string)
    requires s != "" && Classify(First(s)) == Header(section)
    ensures Set(s, section, key, value) == First(s) + SetKey(Rest(s), key, value)
  {
    hide Classify, First, Rest, SetKey, EntryLine, HeaderLine;
  }

  /** Setting a value rewrites the items of the file as it should, unless the section's line is cut off. */
  lemma {:induction false} SetWrites(s: string, section: string, key: string, value: string)
    requires Readable(s) && Settable(section, key, value) && !CutOff(s, section)
    ensures ItemsOf(Set(s, section, key, value)) == SetItem(ItemsOf(s), section, key, value)
    decreases |s|
  {
    hide Classify, First, Rest, Whole, EntryLine, HeaderLine, SetKey, Set;
    if s == "" {
      SetEmpty(section, key, value);
    } else {
      FirstIsWhole(s);
      var l := First(s);
      if Classify(l) == Header(section) {
        SetOpens(s, section, key, value);
        SetKeyWrites(Rest(s), key, value);
        WholeIsRead(l, SetKey(Rest(s), key, value));
        assert ItemsOf(s)[0] == Header(section) && ItemsOf(s)[1..] == ItemsOf(Rest(s));
      } else {
        SetPasses(s, section, key, value);
        SetWrites(Rest(s), section, key, value);
        if Whole(l) {
          WholeIsRead(l, Set(Rest(s), section, key, value));
        } else {
          SetBehindOpen(l, section, key, value);
        }
        SetItemPasses(s, section, key, value);
      }
    }
  }

  lemma SetEmpty(section: string, key: string, value: string)
    requires Settable(section, key, value)
    ensures Set("", section, key, value) == "\n" + (HeaderLine(section) + EntryLine(key, value))
    ensures ItemsOf(Set("", section, key, value)) == [Header(section), Entry(key, value)]
  {
    hide Classify, EntryLine, HeaderLine;
    NewSection(section, key, value);
    NewlineIsJunk(HeaderLine(section) + EntryLine(key, value));
    assert Set("", section, key, value) == "\n" + (HeaderLine(section) + EntryLine(key, value));
  }

  lemma ConcatAssociates(a: string, b: string, c: string)
    ensures a + (b + c) == (a + b) + c
  {
  }

  lemma OpenThenNewline(l: string, more: string)
    requires Open(l) && |l| <= 1021
    ensures ItemsOf(l + ("\n" + more)) == (if Classify(l) == Junk then [] else [Classify(l)]) + ItemsOf(more)
  {
    hide *;
    ClassifyIgnoresEnd(l, '\n');
    OpenIsClosed(l);
    assert l + ['\n'] == l + "\n";
    WholeIsRead(l + "\n", more);
    ConcatAssociates(l, "\n", more);
  }

  /** A last line without newline is closed by the empty line in front of a new section. */
  lemma SetBehindOpen(l: string, section: string, key: string, value: string)
    requires Settable(section, key, value) && Open(l) && 0 < |l| <= 1021
    ensures ItemsOf(l + Set("", section, key, value))
         == (if Classify(l) == Junk then [] else [Classify(l)]) + ItemsOf(Set("", section, key, value))
  {
    hide *;
    SetEmpty(section, key, value);
    NewSection(section, key, value);
    OpenThenNewline(l, HeaderLine(section) + EntryLine(key, value));
  }

  lemma SetItemOfCons(c: Item, items: seq<Item>, section: string, key: string, value: string)
    requires c != Header(section)
    ensures SetItem([c] + items, section, key, value) == [c] + SetItem(items, section, key, value)
  {
    assert ([c] + items)[1..] == items;
    hide Update;
  }

  lemma SetItemPasses(s: string, section: string, key: string, value: string)
    requires s != "" && Classify(First(s)) != Header(section)
    ensures SetItem(ItemsOf(s), section, key, value)
         == (if Classify(First(s)) == Junk then [] else [Classify(First(s))]) + SetItem(ItemsOf(Rest(s)), section, key, value)
  {
    hide Classify, First, Rest;
    if Classify(First(s)) == Junk {
      assert ItemsOf(s) == ItemsOf(Rest(s));
    } else {
      assert ItemsOf(s) == [Classify(First(s))] + ItemsOf(Rest(s));
      SetItemOfCons(Classify(First(s)), ItemsOf(Rest(s)), section, key, value);
      hide ItemsOf, SetItem;
    }
  }

  /**
   * The set/get law: a later get returns the value that was set, and every other key of every
   * section keeps its value; comments and empty lines may be gone.
   */
  lemma SetThenGet(s: string, section: string, key: string, value: string, other: string, k: string)
    requires Readable(s) && Settable(section, key, value) && !CutOff(s, section) && k != ""
    ensures Get(Set(s, section, key, value), other, k) ==
              if other == section && k == key then (ETC_OK, value)
              else if other == section && Get(s, section, key).0 == ETC_SECTIONNOTFOUND then (ETC_KEYNOTFOUND, "")
              else Get(s, other, k)
  {
    hide Get, Set, Readable, CutOff, GetItem;
    SetWrites(s, section, key, value);
    GetReads(Set(s, section, key, value), other, k);
    GetReads(s, other, k);
    GetReads(s, section, key);
    SetItemLaw(ItemsOf(s), section, key, value, other, k);
    SectionMissing(ItemsOf(s), section, key);
  }

  /** A file that did not exist holds the one entry after it was set. */
  lemma NewFileThenGet(section: string, key: string, value: string, other: string, k: string)
    requires Settable(section, key, value)
    ensures Get(HeaderLine(section) + EntryLine(key, value), other, k) ==
              if other == section && k == key then (ETC_OK, value)
              else if other == section then (ETC_KEYNOTFOUND, "")
              else (ETC_SECTIONNOTFOUND, "")
  {
    hide Get, EntryLine, HeaderLine;
    NewSection(section, key, value);
    GetReads(HeaderLine(section) + EntryLine(key, value), other, k);
    var e := [Entry(key, value)];
    var items := [Header(section)] + e;
    assert items[1..] == e && e[1..] == [];
    assert HasSection(items, other) <==> other == section;
    assert Lookup(e, k) == if k == key then (ETC_OK, value) else (ETC_KEYNOTFOUND, "");
  }

  lemma {:induction false} LookupCode(items: seq<Item>, key: string)
    ensures Lookup(items, key).0 in {ETC_OK, ETC_KEYNOTFOUND}
    decreases |items|
  {
    if items != [] {
      LookupCode(items[1..], key);
    }
  }

  lemma SectionMissing(items: seq<Item>, section: string, key: string)
    ensures GetItem(items, section, key).0 == ETC_SECTIONNOTFOUND <==> !HasSection(items, section)
  {
    LookupCode(AfterSection(items, section), key);
    hide HasSection, Lookup;
  }

  // ----- when the law fails -----

  lemma {:induction false} HeadersStay(l: string, t: string)
    requires Classify(l).Header?
    ensures Classify(l + t).Header?
  {
    SkipBlanksOfConcat(l, t);
    hide Until, TrimRight;
  }

  lemma {:induction false} SkipBlanksOfConcat(l: string, t: string)
    requires SkipBlanks(l) != ""
    ensures SkipBlanks(l + t) == SkipBlanks(l) + t
  {
    if l != "" && l[0] in BLANKS {
      assert (l + t)[1..] == l[1..] + t;
      SkipBlanksOfConcat(l[1..], t);
    }
  }

  lemma {:induction false} LineLengthOfOpen(a: string, t: string)
    requires Open(a)
    ensures LineLength(a + t, |a|) == |a|
  {
    if a != "" {
      assert (a + t)[1..] == a[1..] + t;
      LineLengthOfOpen(a[1..], t);
    }
  }

  /** A line that is too long for the buffer is read in pieces. */
  lemma PieceIsRead(a: string, t: string)
    requires Open(a) && |a| == ETC_MAXLINE - 1
    ensures ItemsOf(a + t) == (if Classify(a) == Junk then [] else [Classify(a)]) + ItemsOf(t)
  {
    LineLengthOfOpen(a, t);
    hide Classify, LineLength;
    assert First(a + t) == a && Rest(a + t) == t;
    assert a + t != "";
  }

  /** The second piece of an entry is too short to hold all of it. */
  lemma PieceIsNotTheEntry(t: string, key: string, value: string)
    requires |t| < |key| + |value|
    ensures Classify(t + "\n") != Entry(key, value)
  {
    ClassifyIgnoresEnd(t, '\n');
    assert t + ['\n'] == t + "\n";
    hide Classify;
    if Classify(t).Entry? {
      EntriesAreOk(t);
    }
  }

  /** Hung onto the cut-off header, the new entry is part of that line, or is cut in two by it. */
  lemma SetIntoHeader(s: string, section: string, key: string, value: string)
    requires Settable(section, key, value) && s != "" && First(s) == s && Open(s) && |s| <= 1021
    requires Classify(s) == Header(section)
    ensures GetItem(ItemsOf(Set(s, section, key, value)), section, key) != (ETC_OK, value)
  {
    hide Classify, First, Set, Rest;
    assert Rest(s) == "" by { assert First(s) + Rest(s) == s; }
    SetOpens(s, section, key, value);
    assert SetKey("", key, value) == EntryLine(key, value) + "\n";
    var l := s + (key + "=" + value);
    assert Open(l);
    assert Set(s, section, key, value) == (l + "\n") + "\n";
    NewlineIsJunk("");
    assert "\n" + "" == "\n" && ItemsOf("") == [];
    if |l| < ETC_MAXLINE - 1 {
      assert l + "\n" == s + (key + "=" + value + "\n");
      HeadersStay(s, key + "=" + value + "\n");
      WholeIsRead(l + "\n", "\n");
      TwoItems(ItemsOf(Set(s, section, key, value)), section, key, value);
    } else {
      SetIntoLongHeader(l, s, section, key, value);
    }
  }

  lemma SetIntoLongHeader(l: string, s: string, section: string, key: string, value: string)
    requires Open(l) && Open(s) && |s| <= 1021 && |l| >= ETC_MAXLINE - 1 && |key| + |value| <= 1021
    requires l == s + (key + "=" + value) && Classify(s).Header?
    ensures GetItem(ItemsOf((l + "\n") + "\n"), section, key) != (ETC_OK, value)
  {
    hide Classify, First, Rest, LineLength, GetItem;
    var a, t := l[..ETC_MAXLINE - 1], l[ETC_MAXLINE - 1..];
    var e := a[|s|..];
    assert a == s + e;
    HeadersStay(s, e);
    assert (l + "\n") + "\n" == a + ((t + "\n") + "\n");
    PieceIsRead(a, (t + "\n") + "\n");
    assert Whole(t + "\n");
    WholeIsRead(t + "\n", "\n");
    NewlineIsJunk("");
    assert "\n" + "" == "\n" && ItemsOf("") == [];
    PieceIsNotTheEntry(t, key, value);
    TwoItems(ItemsOf((l + "\n") + "\n"), section, key, value);
  }

  /** A header, and at most one item behind it that is not the entry. */
  lemma TwoItems(items: seq<Item>, section: string, key: string, value: string)
    requires 1 <= |items| <= 2 && items[0].Header? && (|items| == 2 ==> items[1] != Entry(key, value))
    ensures GetItem(items, section, key) != (ETC_OK, value)
  {
    var r := items[1..];
    assert r == [] || (r == [items[1]] && r[1..] == []);
    assert AfterSection(r, section) == [] && Lookup(r, key) != (ETC_OK, value);
    assert AfterSection(items, section) in {r, []};
  }

  lemma {:induction false} CutOffLoses(s: string, section: string, key: string, value: string)
    requires Readable(s) && Settable(section, key, value) && CutOff(s, section)
    ensures GetItem(ItemsOf(Set(s, section, key, value)), section, key) != (ETC_OK, value)
    decreases |s|
  {
    hide Classify, First, Whole, EntryLine, HeaderLine, Set, Settable;
    FirstIsWhole(s);
    var l, r := First(s), Rest(s);
    var n := ItemsOf(Set(s, section, key, value));
    if Classify(l) == Header(section) {
      OpenIsLast(s);
      SetIntoHeader(s, section, key, value);
    } else {
      assert r != "";
      SetPasses(s, section, key, value);
      CutOffLoses(r, section, key, value);
      WholeIsRead(l, Set(r, section, key, value));
      var m := ItemsOf(Set(r, section, key, value));
      if Classify(l) == Junk {
        assert n == m;
      } else {
        assert n == [Classify(l)] + m && n[1..] == m;
        assert n[0] != Header(section);
      }
    }
  }

  /**
   * A value that was set can be got back if and only if the file does not end inside the line that opens its
   * section.
   */
  lemma GetBackExactlyIf(s: string, section: string, key: string, value: string)
    requires Readable(s) && Settable(section, key, value)
    ensures Get(Set(s, section, key, value), section, key) == (ETC_OK, value) <==> !CutOff(s, section)
  {
    hide Get, Set, Readable, CutOff, GetItem;
    if CutOff(s, section) {
      CutOffLoses(s, section, key, value);
      GetReads(Set(s, section, key, value), section, key);
    } else {
      assert key != "" by { assert KeyOk(key); }
      SetThenGet(s, section, key, value, section, key);
    }
  }

  /** Such a file: one header, and no newline behind it. */
  lemma HeaderWithoutNewline()
    ensures Readable("[a]") && Settable("a", "k", "v") && CutOff("[a]", "a")
    ensures Get(Set("[a]", "a", "k", "v"), "a", "k") != (ETC_OK, "v")
  {
    var s := "[a]";
    HeaderRoundTrip("a");
    ClassifyIgnoresEnd(s, '\n');
    assert HeaderLine("a") == s + ['\n'];
    LineLengthOf3(s);
    assert First(s) == s && Rest(s) == "";
    assert KeyOk("k") && ValueOk("v") && SectionOk("a");
    assert Readable(Rest(s));
    hide Classify, LineLength, Get, Set;
    GetBackExactlyIf(s, "a", "k", "v");
  }

  lemma LineLengthOf3(s: string)
    requires |s| == 3 && Open(s)
    ensures LineLength(s, ETC_MAXLINE - 1) == 3
  {
    assert LineLength(s[1..][1..][1..], ETC_MAXLINE - 4) == 0;
  }
}
