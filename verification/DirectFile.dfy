/**
 * Writing a stream through unbuffered, page-aligned file access: every write goes out in whole
 * pages from one static buffer, and a page that was left half full is read back and completed.
 */
module DirectFile {
  import opened MachineInt

  const LARGEST: nat := 368 * 1024 - 2 * 4096   // the buffer, but for two pages of 4096 bytes
  const DF_FALSE := -1

  /** The file, its position, and what the static buffer still holds from earlier writes. */
  datatype State = State(file: seq<byte>, pos: nat, buf: seq<byte>)

  const BUFFER: nat := 368 * 1024 - 4096

  predicate Valid(s: State) { |s.buf| == BUFFER }

  function Zeros(n: nat): (r: seq<byte>)
    ensures |r| == n
  {
    seq(n, _ => 0)
  }

  /** `write`, which leaves a hole of zeros when it begins behind the end. */
  function WriteAt(file: seq<byte>, pos: nat, data: seq<byte>): seq<byte> {
    if pos > |file| then file + Zeros(pos - |file|) + data
    else if pos + |data| >= |file| then file[..pos] + data
    else file[..pos] + data + file[pos + |data|..]
  }

  /** `memcpy` to the front of the buffer. */
  function Over(buf: seq<byte>, at: nat, data: seq<byte>): (r: seq<byte>)
    requires at + |data| <= |buf|
    ensures |r| == |buf|
  {
    buf[..at] + data + buf[at + |data|..]
  }

  function RoundUp(n: nat): (r: nat)
    ensures n <= r < n + 4096 && r % 4096 == 0
    ensures r == (n + 4096 - 1) / 4096 * 4096
  {
    (n + 4096 - 1) / 4096 * 4096
  }

  /** What the caller has to see to: a write that starts inside a page reaches its end. */
  predicate Reaches(s: State, data: seq<byte>) {
    |data| > LARGEST || s.pos % 4096 == 0 || |data| >= 4096 - s.pos % 4096
  }

  function WriteAligned(s: State, data: seq<byte>): State
    requires Valid(s) && |data| <= LARGEST
  {
    var b := Over(s.buf, 0, data);
    State(WriteAt(s.file, s.pos, b[..RoundUp(|data|)]), s.pos + |data|, b)
  }

  /** The rest of the data, once the open page is complete; here the buffer is cleared first. */
  function WriteRest(file: seq<byte>, at: nat, data: seq<byte>): State
    requires |data| <= LARGEST
  {
    var b := Over(Zeros(BUFFER), 0, data);
    State(WriteAt(file, at, b[..RoundUp(|data|)]), at + |data|, b)
  }

  /** The page the position is in, as far as the file has it. */
  function PageOf(s: State): (got: seq<byte>)
    ensures |got| <= 4096
  {
    var at := s.pos - s.pos % 4096;
    if at > |s.file| then [] else s.file[at..if at + 4096 <= |s.file| then at + 4096 else |s.file|]
  }

  /** The buffer with that page read into it. */
  function Loaded(s: State): (b: seq<byte>)
    requires Valid(s)
    ensures |b| == BUFFER
  {
    Over(Over(s.buf, 0, Zeros(4096)), 0, PageOf(s))
  }

  /** The file with that page completed by the front of the data. */
  function Completed(s: State, data: seq<byte>): seq<byte>
    requires Valid(s) && |data| >= 4096 - s.pos % 4096
  {
    var num := s.pos % 4096;
    WriteAt(s.file, s.pos - num, Over(Loaded(s), num, data[..4096 - num])[..4096])
  }

  /** `DF_Write3`: the new position, or -1. */
  function Write3(s: State, data: seq<byte>): (int, State)
    requires Valid(s) && Reaches(s, data)
  {
    var num := s.pos % 4096;
    if |data| > LARGEST then (DF_FALSE, s)
    else if num == 0 then (s.pos + |data|, WriteAligned(s, data))
    else if |PageOf(s)| != 4096 then (DF_FALSE, State(s.file, s.pos - num + |PageOf(s)|, Loaded(s)))
    else (s.pos + |data|, WriteRest(Completed(s, data), s.pos - num + 4096, data[4096 - num..]))
  }

  // ----- what is in the file -----

  /** A stream as it is on disk: whole pages, none of them behind the one the position is in. */
  predicate Streamed(s: State, stream: seq<byte>) {
    && Valid(s)
    && s.pos == |stream| <= |s.file| && s.file[..s.pos] == stream
    && |s.file| == RoundUp(s.pos)
  }

  lemma WriteAtEnd(file: seq<byte>, pos: nat, data: seq<byte>)
    requires pos <= |file|
    ensures var f := WriteAt(file, pos, data);
            |f| == (if pos + |data| >= |file| then pos + |data| else |file|) && f[..pos + |data|] == file[..pos] + data
  {
  }

  lemma OverAtStart(buf: seq<byte>, data: seq<byte>, n: nat)
    requires |data| <= n <= |buf|
    ensures Over(buf, 0, data)[..n][..|data|] == data
  {
  }

  lemma PrefixOfConcat(a: seq<byte>, b: seq<byte>, n: nat)
    requires n <= |b|
    ensures (a + b)[..|a| + n] == a + b[..n]
  {
  }

  /** Data written at a page boundary, with stale bytes behind it up to the next boundary. */
  lemma PagesWritten(file: seq<byte>, at: nat, buf: seq<byte>, data: seq<byte>)
    requires at <= |file| && |data| <= LARGEST && |buf| == BUFFER
    ensures RoundUp(|data|) <= BUFFER
    ensures var f := WriteAt(file, at, Over(buf, 0, data)[..RoundUp(|data|)]);
            at + |data| <= |f| && f[..at + |data|] == file[..at] + data
            && (|file| <= at + RoundUp(|data|) ==> |f| == at + RoundUp(|data|))
  {
    var n := RoundUp(|data|);
    var pages := Over(buf, 0, data)[..n];
    OverAtStart(buf, data, n);
    WriteAtEnd(file, at, pages);
    PrefixOfConcat(file[..at], pages, |data|);
    var f := WriteAt(file, at, pages);
    assert f[..at + n][..at + |data|] == f[..at + |data|];
    hide WriteAt, Over;
  }

  lemma AlignedKeepsStream(s: State, stream: seq<byte>, data: seq<byte>)
    requires Streamed(s, stream) && |data| <= LARGEST && s.pos % 4096 == 0
    ensures Streamed(WriteAligned(s, data), stream + data)
  {
    PagesWritten(s.file, s.pos, s.buf, data);
    RoundUpFrom(s.pos, |data|);
    RoundUpFrom(s.pos, 0);
    hide WriteAt, Over, RoundUp;
  }

  lemma RoundUpFrom(at: nat, n: nat)
    requires at % 4096 == 0
    ensures RoundUp(at + n) == at + RoundUp(n) && RoundUp(0) == 0
  {
  }

  /** The page read back, completed with the front of the data. */
  lemma PageCompleted(file: seq<byte>, at: nat, num: nat, b: seq<byte>, data: seq<byte>)
    requires at + 4096 <= |file| && 0 < num < 4096 && |data| >= 4096 - num && |b| == BUFFER
    requires b[..4096] == file[at..at + 4096]
    ensures var f := WriteAt(file, at, Over(b, num, data[..4096 - num])[..4096]);
            |f| == |file| && f[..at + 4096] == file[..at + num] + data[..4096 - num]
  {
    var page := Over(b, num, data[..4096 - num])[..4096];
    assert page == b[..num] + data[..4096 - num];
    assert b[..num] == file[at..at + num] by { assert b[..4096][..num] == b[..num]; assert file[at..at + 4096][..num] == file[at..at + num]; }
    WriteAtEnd(file, at, page);
    assert file[..at] + (file[at..at + num] + data[..4096 - num]) == file[..at + num] + data[..4096 - num];
    hide WriteAt, Over;
  }

  lemma RestKeepsStream(file: seq<byte>, at: nat, stream: seq<byte>, data: seq<byte>)
    requires at % 4096 == 0 && |file| == at == |stream| && file == stream && |data| <= LARGEST
    ensures Streamed(WriteRest(file, at, data), stream + data)
  {
    PagesWritten(file, at, Zeros(BUFFER), data);
    assert file[..at] == stream;
    hide WriteAt;
  }

  lemma LoadedIsPage(s: State, stream: seq<byte>)
    requires Streamed(s, stream) && s.pos % 4096 != 0
    ensures var at := s.pos - s.pos % 4096; |s.file| == at + 4096 && PageOf(s) == s.file[at..at + 4096] == Loaded(s)[..4096]
  {
    var b := Over(s.buf, 0, Zeros(4096));
    OverAtStart(b, PageOf(s), 4096);
    assert Loaded(s)[..4096] == Loaded(s)[..4096][..4096];
    hide Over, Zeros;
  }

  lemma CompletedIsStream(s: State, stream: seq<byte>, data: seq<byte>)
    requires Streamed(s, stream) && s.pos % 4096 != 0 && |data| >= 4096 - s.pos % 4096
    ensures var num := s.pos % 4096; Completed(s, data) == stream + data[..4096 - num] && |Completed(s, data)| == s.pos - num + 4096
  {
    var num := s.pos % 4096;
    LoadedIsPage(s, stream);
    hide Loaded, WriteAt, Over;
    PageCompleted(s.file, s.pos - num, num, Loaded(s), data);
    var f := Completed(s, data);
    assert f == f[..s.pos - num + 4096];
  }

  lemma UnalignedWrite(s: State, data: seq<byte>)
    requires Valid(s) && |data| <= LARGEST && s.pos % 4096 != 0 && Reaches(s, data) && |PageOf(s)| == 4096
    ensures var num := s.pos % 4096;
            |data| >= 4096 - num
            && Write3(s, data) == (s.pos + |data|, WriteRest(Completed(s, data), s.pos - num + 4096, data[4096 - num..]))
  {
    hide Completed, PageOf, WriteRest;
  }

  lemma RestJoins(f: seq<byte>, at: nat, stream: seq<byte>, data: seq<byte>, k: nat)
    requires at % 4096 == 0 && k <= |data| <= LARGEST && f == stream + data[..k] && |f| == at
    ensures Streamed(WriteRest(f, at, data[k..]), stream + data)
  {
    RestKeepsStream(f, at, f, data[k..]);
    hide WriteRest, Streamed;
    assert data[..k] + data[k..] == data;
    assert f + data[k..] == stream + (data[..k] + data[k..]);
  }

  /** Where the next page begins. */
  function PageEnd(pos: nat): (next: nat)
    ensures next % 4096 == 0 && next == pos - pos % 4096 + 4096
  {
    pos - pos % 4096 + 4096
  }

  lemma UnalignedKeepsStream(s: State, stream: seq<byte>, data: seq<byte>)
    requires Streamed(s, stream) && |data| <= LARGEST && s.pos % 4096 != 0 && Reaches(s, data)
    ensures var (ret, t) := Write3(s, data); ret == s.pos + |data| && Streamed(t, stream + data)
  {
    LoadedIsPage(s, stream);
    UnalignedWrite(s, data);
    CompletedIsStream(s, stream, data);
    hide Loaded, Completed, PageOf, WriteRest, Write3, Reaches, Streamed;
    RestJoins(Completed(s, data), PageEnd(s.pos), stream, data, 4096 - s.pos % 4096);
  }

  /**
   * A write of up to 360 KiB that reaches its page end appends its data to the stream, and never reads a short
   * page; a larger one is refused.
   */
  lemma WriteAppends(s: State, stream: seq<byte>, data: seq<byte>)
    requires Streamed(s, stream) && Reaches(s, data)
    ensures var (ret, t) := Write3(s, data);
            if |data| <= 360 * 1024 then ret == s.pos + |data| && Streamed(t, stream + data) else ret == -1 && t == s
  {
    hide WriteAt, Over, Loaded, Completed, PageOf, WriteRest, WriteAligned;
    if |data| <= LARGEST {
      if s.pos % 4096 == 0 {
        AlignedKeepsStream(s, stream, data);
      } else {
        UnalignedKeepsStream(s, stream, data);
      }
    }
  }

  // ----- runs -----

  function Joined(writes: seq<seq<byte>>): seq<byte> { if writes == [] then [] else writes[0] + Joined(writes[1..]) }

  /** Every write is small enough, and reaches its page end from where it starts. */
  predicate Reaching(pos: nat, writes: seq<seq<byte>>)
    decreases |writes|
  {
    writes == [] ||
    (|writes[0]| <= LARGEST && (pos % 4096 == 0 || |writes[0]| >= 4096 - pos % 4096) && Reaching(pos + |writes[0]|, writes[1..]))
  }

  function Run(s: State, writes: seq<seq<byte>>): State
    requires Valid(s) && Reaching(s.pos, writes)
    decreases |writes|
  {
    if writes == [] then s
    else
      var (ret, t) := Write3(s, writes[0]);
      if ret == s.pos + |writes[0]| && Valid(t) && t.pos == ret then Run(t, writes[1..]) else s
  }

  /** Any such run leaves exactly the bytes of its buffers in front of the position, in whole pages. */
  lemma {:induction false} RunWritesAll(s: State, stream: seq<byte>, writes: seq<seq<byte>>)
    requires Streamed(s, stream) && Reaching(s.pos, writes)
    ensures Streamed(Run(s, writes), stream + Joined(writes))
    decreases |writes|
  {
    hide Write3, RoundUp;
    if writes == [] {
      assert stream + [] == stream;
    } else {
      WriteAppends(s, stream, writes[0]);
      var (ret, t) := Write3(s, writes[0]);
      RunWritesAll(t, stream + writes[0], writes[1..]);
      assert stream + writes[0] + Joined(writes[1..]) == stream + Joined(writes);
    }
  }

  /** From an empty file: the bytes written, then padding to the page. */
  lemma FileHoldsStream(buf: seq<byte>, writes: seq<seq<byte>>)
    requires |buf| == BUFFER && Reaching(0, writes)
    ensures var t := Run(State([], 0, buf), writes);
            t.pos == |Joined(writes)| <= |t.file| < t.pos + 4096 && |t.file| % 4096 == 0 && t.file[..t.pos] == Joined(writes)
  {
    RunWritesAll(State([], 0, buf), [], writes);
    assert [] + Joined(writes) == Joined(writes);
    hide Run, Joined, Reaching;
  }

  // ----- what is behind the stream -----

  /** Pages appended at the end of the file. */
  lemma PagesAppended(file: seq<byte>, buf: seq<byte>, data: seq<byte>)
    requires |data| <= LARGEST && |buf| == BUFFER
    ensures RoundUp(|data|) <= BUFFER
    ensures var f := WriteAt(file, |file|, Over(buf, 0, data)[..RoundUp(|data|)]);
            |file| + |data| <= |f| && f[|file| + |data|..] == buf[|data|..RoundUp(|data|)]
  {
    var n := RoundUp(|data|);
    var pages := Over(buf, 0, data)[..n];
    assert pages == data + buf[|data|..n];
    assert file[..|file|] == file;
    assert WriteAt(file, |file|, pages) == (file + data) + buf[|data|..n];
  }

  lemma ZerosCut(n: nat, from: nat, to: nat)
    requires from <= to <= n
    ensures Zeros(n)[from..to] == Zeros(to - from)
  {
  }

  /** The rest of the data behind a whole number of pages leaves zeros. */
  lemma RestPadsZeros(f: seq<byte>, data: seq<byte>)
    requires |data| <= LARGEST
    ensures var t := WriteRest(f, |f|, data); t.pos <= |t.file| && t.file[t.pos..] == Zeros(|t.file| - t.pos)
  {
    PagesAppended(f, Zeros(BUFFER), data);
    ZerosCut(BUFFER, |data|, RoundUp(|data|));
    hide WriteAt, Over, Zeros, RoundUp;
  }

  lemma AlignedPadding(s: State, data: seq<byte>)
    requires Valid(s) && |data| <= LARGEST && s.pos % 4096 == 0 && |s.file| == s.pos
    ensures RoundUp(|data|) <= BUFFER
    ensures var t := Write3(s, data).1; t.pos <= |t.file| && t.file[t.pos..] == s.buf[|data|..RoundUp(|data|)]
  {
    PagesAppended(s.file, s.buf, data);
    hide WriteAt, Over, RoundUp;
  }

  /** What a write leaves behind the stream: an aligned one what the buffer held there, any other one zeros. */
  lemma PaddingIs(s: State, stream: seq<byte>, data: seq<byte>)
    requires Streamed(s, stream) && |data| <= LARGEST && Reaches(s, data)
    ensures RoundUp(|data|) <= BUFFER
    ensures var t := Write3(s, data).1;
            t.pos <= |t.file| && t.file[t.pos..] ==
              if s.pos % 4096 == 0 then s.buf[|data|..RoundUp(|data|)] else Zeros(|t.file| - t.pos)
  {
    if s.pos % 4096 == 0 {
      AlignedPadding(s, data);
    } else {
      LoadedIsPage(s, stream);
      UnalignedWrite(s, data);
      CompletedIsStream(s, stream, data);
      PagesAppended(s.file, s.buf, data);
      hide *;
      RestPadsZeros(Completed(s, data), data[4096 - s.pos % 4096..]);
    }
  }

  /** Behind the position there is nothing but zeros. */
  predicate Blank(t: State) { forall i :: t.pos <= i < |t.file| ==> t.file[i] == 0 }

  /** The padding is blank if and only if the write was not aligned, or found zeros in its place in the buffer. */
  lemma PaddingIsBlankExactlyIf(s: State, stream: seq<byte>, data: seq<byte>)
    requires Streamed(s, stream) && |data| <= LARGEST && Reaches(s, data)
    ensures Blank(Write3(s, data).1) <==>
              s.pos % 4096 != 0 || forall i :: |data| <= i < RoundUp(|data|) && i < |s.buf| ==> s.buf[i] == 0
  {
    PaddingIs(s, stream, data);
    var t, n := Write3(s, data).1, RoundUp(|data|);
    var padding := t.file[t.pos..];
    hide Write3, Streamed, Reaches, RoundUp;
    forall i | t.pos <= i < |t.file| ensures t.file[i] == padding[i - t.pos] {
    }
    if s.pos % 4096 == 0 {
      if Blank(t) {
        forall i | |data| <= i < n ensures s.buf[i] == 0 {
          assert s.buf[i] == padding[i - |data|] == t.file[t.pos + (i - |data|)];
        }
      }
    }
  }

  /** The input: a page of sevens, then a single byte; the rest of its page is sevens again. */
  lemma PaddingIsStale()
    ensures var writes := [seq(4096, _ => 7 as byte), [1]];
            && Reaching(0, writes)
            && var t := Run(State([], 0, Zeros(BUFFER)), writes);
               |t.file| == 8192 && t.pos == 4097 && forall i :: 4097 <= i < 8192 ==> t.file[i] == 7
  {
    var sevens := seq(4096, _ => 7 as byte);
    var s := State([], 0, Zeros(BUFFER));
    var (ret, t) := Write3(s, sevens);
    WriteAppends(s, [], sevens);
    BufferAfterPage(s, sevens);
    assert [] + sevens == sevens;
    WriteAppends(t, sevens, [1]);
    PaddingIs(t, sevens, [1]);
    var (ret', u) := Write3(t, [1]);
    assert forall i :: 4097 <= i < 8192 ==> u.file[i] == u.file[4097..][i - 4097];
    assert [sevens, [1]][1..] == [[1]] && [[1]][1..] == [];
    assert Reaching(4097, []) && Reaching(4096, [[1]]);
    assert Run(t, [[1]]) == u;
    hide Write3, Streamed, Zeros;
  }

  lemma BufferAfterPage(s: State, data: seq<byte>)
    requires Valid(s) && s.pos == 0 && |data| == 4096
    ensures var t := Write3(s, data).1; |t.buf| == BUFFER && t.buf[..4096] == data
  {
    hide WriteAt;
  }
}
