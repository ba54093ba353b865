/** `DF_Write3` as it runs: seeks, reads and writes on a descriptor, and one static buffer. */
module DirectWriter {
  import opened MachineInt
  import opened DirectFile

  class Descriptor {
    var file: seq<byte>
    var pos: nat
    const buf: array<byte>

    ghost function Now(): State
      reads this, buf
    {
      State(file, pos, buf[..])
    }

    /** A new file, and a buffer fresh from `malloc`. */
    constructor ()
      ensures file == [] && pos == 0 && buf.Length == BUFFER && fresh(buf)
    {
      file, pos := [], 0;
      buf := new byte[BUFFER];
    }

    method Seek(offset: nat)
      modifies this`pos
      ensures pos == offset
    {
      pos := offset;
    }

    /** `memcpy` or `memset` into the buffer */
    method Fill(at: nat, data: seq<byte>)
      requires at + |data| <= buf.Length
      modifies buf
      ensures buf[..] == Over(old(buf[..]), at, data)
    {
      var i := 0;
      while i < |data|
        invariant i <= |data|
        invariant forall j :: 0 <= j < buf.Length ==> buf[j] == if at <= j < at + i then data[j - at] else old(buf[j])
      {
        buf[at + i] := data[i];
        i := i + 1;
      }
    }

    /** `read`, of a page, to the front of the buffer */
    method ReadPage() returns (n: nat)
      requires buf.Length == BUFFER && pos % 4096 == 0
      modifies this`pos, buf
      ensures n == |PageOf(old(Now()))| && pos == old(pos) + n
      ensures buf[..] == Over(old(buf[..]), 0, PageOf(old(Now())))
    {
      var got: seq<byte> := if pos > |file| then [] else if pos + 4096 <= |file| then file[pos..pos + 4096] else file[pos..];
      Fill(0, got);
      n := |got|;
      pos := pos + n;
    }

    /** `write`, of the first `n` bytes of the buffer */
    method WriteBuffer(n: nat)
      requires n <= buf.Length
      modifies this`file, this`pos
      ensures file == WriteAt(old(file), old(pos), buf[..n]) && pos == old(pos) + n
    {
      var data := buf[..n];
      if pos > |file| {
        file := file + Zeros(pos - |file|) + data;
      } else if pos + n >= |file| {
        file := file[..pos] + data;
      } else {
        file := file[..pos] + data + file[pos + n..];
      }
      pos := pos + n;
    }

    /** The branch for a position at a page boundary. */
    method AlignedWrite(data: seq<byte>)
      requires buf.Length == BUFFER && |data| <= LARGEST
      modifies this, buf
      ensures Now() == WriteAligned(old(Now()), data)
    {
      hide WriteAt, Over;
      var offset := pos;
      Fill(0, data);
      WriteBuffer(RoundUp(|data|));
      Seek(offset + |data|);
    }

    /** The rest of the data behind a completed page. */
    method RestWrite(data: seq<byte>)
      requires buf.Length == BUFFER && |data| <= LARGEST
      modifies this, buf
      ensures Now() == WriteRest(old(file), old(pos), data)
    {
      hide WriteAt;
      var offset := pos;
      Fill(0, Zeros(BUFFER));
      assert buf[..] == Zeros(BUFFER);
      hide Over, Zeros;
      Fill(0, data);
      WriteBuffer(RoundUp(|data|));
      Seek(offset + |data|);
    }

    /** Reads the open page back. */
    method LoadPage() returns (n: nat)
      requires buf.Length == BUFFER
      modifies this`pos, buf
      ensures var s := old(Now());
              n == |PageOf(s)| && pos == s.pos - s.pos % 4096 + n && buf[..] == Loaded(s)
    {
      hide Over, Zeros;
      ghost var s := Now();
      Seek(pos - pos % 4096);
      Fill(0, Zeros(4096));
      assert PageOf(Now()) == PageOf(s);
      n := ReadPage();
    }

    /** `DF_Write3` */
    method Write(data: seq<byte>) returns (ret: int)
      requires buf.Length == BUFFER && Reaches(Now(), data)
      modifies this, buf
      ensures (ret, Now()) == Write3(old(Now()), data)
    {
      hide WriteAt, Over, Zeros, WriteRest, WriteAligned, PageOf, Loaded;
      if |data| > LARGEST {
        return DF_FALSE;
      }
      var offset := pos;
      if offset % 4096 == 0 {
        AlignedWrite(data);
        return offset + |data|;
      }
      var num := offset % 4096;
      var n := LoadPage();
      if n != 4096 {
        return DF_FALSE;
      }
      Seek(offset - num);
      Fill(num, data[..4096 - num]);
      WriteBuffer(4096);
      RestWrite(data[4096 - num..]);
      ret := offset + |data|;
    }
  }
}
