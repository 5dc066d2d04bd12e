/** A stream on a memory buffer: fmemopen and its read, write and seek functions. */
module MemStream {
  import opened Bytes
  import opened Wrappers

  // ----- the mode string -----

  datatype Flags = Flags(read: bool, write: bool, append: bool, truncate: bool)

  const NONE := Flags(false, false, false, false)

  /** [rwa][+b]* */
  predicate IsMode(mode: string) {
    |mode| > 0 && (mode[0] == 'r' || mode[0] == 'w' || mode[0] == 'a')
    && forall i | 1 <= i < |mode| :: mode[i] == '+' || mode[i] == 'b'
  }

  predicate HasPlus(mode: string) { exists i :: 0 <= i < |mode| && mode[i] == '+' }

  /** type_to_flags: succeeds on exactly those strings, and means what the first letter and a plus mean. */
  method TypeToFlags(mode: string) returns (flags: Flags)
    ensures flags != NONE <==> IsMode(mode)
    ensures IsMode(mode) ==>
              && (flags.read <==> mode[0] == 'r' || HasPlus(mode))
              && (flags.write <==> mode[0] == 'w' || HasPlus(mode))
              && (flags.append <==> mode[0] == 'a')
              && (flags.truncate <==> mode[0] == 'w')
  {
    flags := NONE;
    var i := 0;
    while i < |mode|
      invariant i <= |mode|
      invariant i == 0 <==> flags == NONE
      invariant i > 0 ==> mode[0] == 'r' || mode[0] == 'w' || mode[0] == 'a'
      invariant forall j | 1 <= j < i :: mode[j] == '+' || mode[j] == 'b'
      invariant i > 0 ==>
                  && (flags.read <==> mode[0] == 'r' || exists j :: 0 <= j < i && mode[j] == '+')
                  && (flags.write <==> mode[0] == 'w' || exists j :: 0 <= j < i && mode[j] == '+')
                  && (flags.append <==> mode[0] == 'a') && (flags.truncate <==> mode[0] == 'w')
    {
      match mode[i] {
        case 'r' =>
          if flags != NONE { return NONE; }
          flags := flags.(read := true);
        case 'w' =>
          if flags != NONE { return NONE; }
          flags := flags.(write := true, truncate := true);
        case 'a' =>
          if flags != NONE { return NONE; }
          flags := flags.(append := true);
        case '+' =>
          if flags == NONE { return NONE; }
          flags := flags.(read := true, write := true);
        case 'b' =>
          if flags == NONE { return NONE; }
        case _ => return NONE;
      }
      i := i + 1;
    }
  }

  // ----- the specification: a file of bounded size -----

  datatype Abs = Abs(data: seq<byte>, pos: nat)

  function Min(a: int, b: int): int { if a < b then a else b }

  function ReadSpec(f: Abs, len: nat): (Abs, seq<byte>)
    requires f.pos <= |f.data|
  {
    var n := Min(len, |f.data| - f.pos);
    (f.(pos := f.pos + n), f.data[f.pos..f.pos + n])
  }

  /** As much of d as fits below cap, at the end or at the position. */
  function WriteSpec(f: Abs, d: seq<byte>, cap: nat, append: bool): (Abs, nat)
    requires f.pos <= |f.data| <= cap
  {
    var off := if append then |f.data| else f.pos;
    var n := Min(|d|, cap - off);
    var rest := if off + n < |f.data| then f.data[off + n..] else [];
    (Abs(f.data[..off] + d[..n] + rest, off + n), n)
  }

  datatype Whence = SET | CUR | END

  function SeekSpec(f: Abs, pos: int, whence: Whence): Option<Abs> {
    var off := match whence case SET => pos case CUR => f.pos + pos case END => |f.data| + pos;
    if off < 0 || off > |f.data| then None else Some(f.(pos := off))
  }

  /** A read takes the bytes from the position on, as many as asked for or as there are, and moves past them. */
  lemma ReadMeans(f: Abs, len: nat)
    requires f.pos <= |f.data|
    ensures var (g, r) := ReadSpec(f, len);
            && g.data == f.data && g.pos == f.pos + |r| && (|r| == len || (|r| < len && f.pos + |r| == |f.data|))
            && forall i | 0 <= i < |r| :: r[i] == f.data[f.pos + i]
  {
  }

  /** A write puts its first bytes from the position on, or after the end of an appending stream, as many as fit
      below cap; every other byte stays, nothing is left out between, and the position is after them. */
  lemma WriteMeans(f: Abs, d: seq<byte>, cap: nat, append: bool)
    requires f.pos <= |f.data| <= cap
    ensures var (g, n) := WriteSpec(f, d, cap, append);
            var off := if append then |f.data| else f.pos;
            && n <= |d| && off + n <= cap && (n == |d| || off + n == cap) && g.pos == off + n
            && |g.data| == (if off + n > |f.data| then off + n else |f.data|)
            && (forall i | 0 <= i < n :: g.data[off + i] == d[i])
            && (forall i | 0 <= i < |f.data| && !(off <= i < off + n) :: g.data[i] == f.data[i])
  {
  }

  /** SEEK_SET counts from the start, SEEK_CUR from the position, SEEK_END from the end; no seek leaves the
      contents, and none changes them. */
  lemma SeekMeans(f: Abs, pos: int)
    requires f.pos <= |f.data|
    ensures SeekSpec(f, pos, SET) == if 0 <= pos <= |f.data| then Some(Abs(f.data, pos)) else None
    ensures SeekSpec(f, pos, CUR) == if 0 <= f.pos + pos <= |f.data| then Some(Abs(f.data, f.pos + pos)) else None
    ensures SeekSpec(f, pos, END) == if -|f.data| <= pos <= 0 then Some(Abs(f.data, |f.data| + pos)) else None
    ensures SeekSpec(f, 0, SET).value.pos == 0 && SeekSpec(f, 0, CUR).value.pos == f.pos
    ensures SeekSpec(f, 0, END).value.pos == |f.data|
  {
  }

  /** Two seeks from the position add up, when the first one succeeds. */
  lemma SeeksAddUp(f: Abs, a: int, b: int)
    requires f.pos <= |f.data| && 0 <= f.pos + a <= |f.data|
    ensures SeekSpec(SeekSpec(f, a, CUR).value, b, CUR) == SeekSpec(f, a + b, CUR)
  {
  }

  datatype Call = Read(len: nat) | Write(d: seq<byte>) | Seek(pos: int, whence: Whence)

  function Do(f: Abs, c: Call, cap: nat, append: bool): Abs
    requires f.pos <= |f.data| <= cap
  {
    match c
    case Read(len) => ReadSpec(f, len).0
    case Write(d) => WriteSpec(f, d, cap, append).0
    case Seek(pos, whence) => (match SeekSpec(f, pos, whence) case None => f case Some(g) => g)
  }

  lemma DoBounds(f: Abs, c: Call, cap: nat, append: bool)
    requires f.pos <= |f.data| <= cap
    ensures Do(f, c, cap, append).pos <= |Do(f, c, cap, append).data| <= cap
    ensures append ==> f.data <= Do(f, c, cap, append).data
  {
  }

  ghost function DoAll(f: Abs, cs: seq<Call>, cap: nat, append: bool): Abs
    requires f.pos <= |f.data| <= cap
    decreases |cs|
  {
    if cs == [] then f
    else
      DoBounds(f, cs[0], cap, append);
      DoAll(Do(f, cs[0], cap, append), cs[1..], cap, append)
  }

  /** Over every run of calls: the position stays within the data, the data within the buffer; and an
      appending stream never changes what it holds. */
  lemma {:induction false} RunBounds(f: Abs, cs: seq<Call>, cap: nat, append: bool)
    requires f.pos <= |f.data| <= cap
    ensures DoAll(f, cs, cap, append).pos <= |DoAll(f, cs, cap, append).data| <= cap
    ensures append ==> f.data <= DoAll(f, cs, cap, append).data
    decreases |cs|
  {
    if cs != [] {
      DoBounds(f, cs[0], cap, append);
      RunBounds(Do(f, cs[0], cap, append), cs[1..], cap, append);
    }
  }

  /** What was written can be read back: write, seek to where it began, read. */
  lemma WriteSeekRead(f: Abs, d: seq<byte>, cap: nat, append: bool)
    requires f.pos <= |f.data| <= cap
    ensures var (g, n) := WriteSpec(f, d, cap, append);
            var off := if append then |f.data| else f.pos;
            && SeekSpec(g, off, SET) == Some(g.(pos := off))
            && ReadSpec(g.(pos := off), n).1 == d[..n]
            && (n == |d| <==> off + |d| <= cap)
  {
  }

  // ----- the terminator -----

  /** Where mstream_write puts a zero byte when the stream cannot be read: after what it wrote, or in the
      last byte of a buffer that is full. */
  function TerminatorAt(pos: nat, cap: nat): nat
    requires cap > 0
  {
    if pos < cap then pos else cap - 1
  }

  /** The file with that byte zeroed, when it lies inside the contents. */
  function Zeroed(g: Abs, cap: nat): Abs
    requires cap > 0
  {
    var at := TerminatorAt(g.pos, cap);
    if at < |g.data| then g.(data := g.data[at := 0]) else g
  }

  /** What a caller can look at before a write: does the zero byte fall behind the contents, or on a byte
      that is or becomes zero anyway? */
  predicate Harmless(f: Abs, d: seq<byte>, cap: nat, append: bool)
    requires f.pos <= |f.data| <= cap && cap > 0
  {
    var off := if append then |f.data| else f.pos;
    var end := off + |d|;
    if end < cap then end >= |f.data| || f.data[end] == 0
    else if off < cap then d[cap - off - 1] == 0
    else f.data[cap - 1] == 0
  }

  /** Without a plus a write is the bounded file's write exactly then: it is not after a seek back into
      the contents, nor when it fills the buffer with a last byte that is not zero. */
  lemma TerminatorHarmless(f: Abs, d: seq<byte>, cap: nat, append: bool)
    requires f.pos <= |f.data| <= cap && cap > 0
    ensures var g := WriteSpec(f, d, cap, append).0;
            Zeroed(g, cap) == g <==> Harmless(f, d, cap, append)
  {
    var g := WriteSpec(f, d, cap, append).0;
    var at := TerminatorAt(g.pos, cap);
    var off := if append then |f.data| else f.pos;
    if off + |d| < cap {
      if at < |f.data| { assert g.data[at] == f.data[at]; }
    } else if off < cap {
      assert g.data[at] == d[cap - off - 1];
    } else {
      assert g.data == f.data;
    }
    if at < |g.data| { assert g.data[at := 0] == g.data <==> g.data[at] == 0 by { Unchanged(g.data, at); } }
  }

  lemma Unchanged(s: seq<byte>, at: nat)
    requires at < |s|
    ensures s[at := 0] == s <==> s[at] == 0
  {
    assert s[at := 0][at] == 0;
  }

  /** Writing one byte over the first of two loses the second; filling the buffer loses the last one. */
  lemma TerminatorHarms()
    ensures var f := Abs([97, 98], 0);
            Zeroed(WriteSpec(f, [99], 8, false).0, 8) == Abs([99, 0], 1)
            && WriteSpec(f, [99], 8, false).0 == Abs([99, 98], 1)
    ensures Zeroed(WriteSpec(Abs([], 0), [97, 98], 2, true).0, 2) == Abs([97, 0], 2)
  {
    assert WriteSpec(Abs([97, 98], 0), [99], 8, false).0.data == [99, 98];
    assert WriteSpec(Abs([], 0), [97, 98], 2, true).0.data == [97, 98];
  }

  /** What the buffer holds up to its new end after a copy at off, when it held v bytes before. */
  lemma StoredData(b: seq<byte>, v: nat, off: nat, d: seq<byte>)
    requires off <= v <= |b| && off + |d| <= |b|
    ensures var end := if off + |d| > v then off + |d| else v;
            (b[..off] + d + b[off + |d|..])[..end]
            == b[..v][..off] + d + if off + |d| < v then b[..v][off + |d|..] else []
  {
  }

  // ----- the stream -----

  /** What a stream holds when it is opened. */
  ghost function Opened(contents: seq<byte>, flags: Flags, own: bool): Abs {
    if flags.append then (if own then Abs([], 0) else Abs(contents[..EndOf(contents)], EndOf(contents)))
    else if flags.truncate then Abs([], 0)
    else Abs(contents, 0)
  }

  /** An appending stream on a caller's buffer starts at its first zero byte, or is full; a truncating one is empty;
      any other holds the whole buffer and starts at 0. */
  lemma OpenedMeans(contents: seq<byte>, flags: Flags, own: bool)
    ensures var f := Opened(contents, flags, own);
            && |f.data| <= |contents| && f.data == contents[..|f.data|]
            && (flags.append && !own ==>
                  f.pos == |f.data| && (forall i | 0 <= i < |f.data| :: contents[i] != 0)
                  && (|f.data| < |contents| ==> contents[|f.data|] == 0))
            && (flags.append && own ==> f.data == [] && f.pos == 0)
            && (!flags.append && flags.truncate ==> f.data == [] && f.pos == 0)
            && (!flags.append && !flags.truncate ==> f.data == contents && f.pos == 0)
  {
  }

  class Stream {
    var buf: array<byte>
    var rsize: nat
    var vsize: nat
    var curpos: nat
    var flags: Flags

    ghost predicate Valid()
      reads this, buf
    {
      0 < rsize == buf.Length && curpos <= vsize <= rsize
    }

    ghost function View(): Abs
      requires Valid()
      reads this, buf
    {
      Abs(buf[..vsize], curpos)
    }

    /** fmemopen, after its argument checks; own says that it allocated the buffer itself. */
    constructor (buf: array<byte>, flags: Flags, own: bool)
      requires buf.Length > 0
      ensures Valid() && this.buf == buf && this.flags == flags
      ensures View() == Opened(buf[..], flags, own)
    {
      this.buf, this.rsize, this.flags := buf, buf.Length, flags;
      var pos := 0;
      if flags.append && !own { pos := FindEnd(buf); }
      this.curpos := pos;
      this.vsize := if flags.append then pos else if flags.truncate then 0 else buf.Length;
      new;
      assert this.buf[..0] == [] && this.buf[..this.buf.Length] == buf[..];
    }

    /** mstream_read */
    method Read(len: nat) returns (r: Option<seq<byte>>)
      requires Valid()
      modifies this`curpos
      ensures Valid() && (r == None <==> !flags.read)
      ensures r.Some? ==> (View(), r.value) == ReadSpec(old(View()), len)
      ensures r == None ==> View() == old(View())
    {
      if !flags.read { return None; }
      if curpos >= vsize {
        assert View().data[curpos..curpos] == [];
        return Some([]);
      }
      var nr := Min(len, vsize - curpos);
      assert View().data[curpos..curpos + nr] == buf[curpos..curpos + nr];
      r := Some(buf[curpos..curpos + nr]);
      curpos := curpos + nr;
    }

    /** mstream_write: on a stream that can be read too, exactly a write of a bounded file, with the
        terminator outside the contents; otherwise that write and then a byte zeroed, which shows in the
        contents unless the write was harmless. */
    method Write(d: seq<byte>) returns (nw: int)
      requires Valid()
      modifies this`curpos, this`vsize, buf
      ensures Valid() && rsize == old(rsize)
      ensures !flags.append && !flags.write ==> nw == -1 && View() == old(View())
      ensures flags.append || flags.write ==>
                var (f, n) := WriteSpec(old(View()), d, rsize, flags.append);
                && nw == n && curpos == f.pos && vsize == |f.data|
                && (flags.read && flags.write ==>
                      View() == f && (vsize > old(vsize) && vsize < rsize ==> buf[vsize] == 0))
                && (!flags.read ==>
                      && buf[TerminatorAt(f.pos, rsize)] == 0 && View() == Zeroed(f, rsize)
                      && (View() == f <==> Harmless(old(View()), d, rsize, flags.append)))
    {
      hide WriteSpec, Harmless;
      if !(flags.append || flags.write) { return -1; }
      ghost var before := View();
      nw := Store(d);
      if curpos > vsize {
        vsize := curpos;
        if flags.read && flags.write && vsize < rsize { buf[vsize] := 0; }
      }
      ghost var f := WriteSpec(before, d, rsize, flags.append).0;
      assert buf[..vsize] == f.data;
      if (flags.write || flags.append) && !flags.read {
        TerminatorHarmless(before, d, rsize, flags.append);
        if curpos < rsize { buf[curpos] := 0; } else { buf[rsize - 1] := 0; }
      }
    }

    /** The copy of mstream_write, and the new position. */
    method Store(d: seq<byte>) returns (nw: nat)
      requires Valid() && (flags.append || flags.write)
      modifies this`curpos, buf
      ensures var (f, n) := WriteSpec(old(View()), d, rsize, flags.append);
              && nw == n && curpos == f.pos && |f.data| == (if curpos > vsize then curpos else vsize) <= rsize
              && buf[..|f.data|] == f.data
    {
      var off := if flags.append then vsize else curpos;
      nw := Min(|d|, rsize - off);
      StoredData(buf[..], vsize, off, d[..nw]);
      Copy(off, d[..nw]);
      curpos := off + nw;
      assert d[..nw] == d[..Min(|d|, rsize - off)];
    }

    /** memcpy into the buffer */
    method Copy(off: nat, d: seq<byte>)
      requires off + |d| <= buf.Length
      modifies buf
      ensures buf[..] == old(buf[..off]) + d + old(buf[off + |d|..])
    {
      forall i | 0 <= i < |d| { buf[off + i] := d[i]; }
    }

    /** mstream_seek */
    method Seek(pos: int, whence: Whence) returns (r: int)
      requires Valid()
      modifies this`curpos
      ensures Valid()
      ensures match SeekSpec(old(View()), pos, whence)
              case None => r == -1 && View() == old(View())
              case Some(f) => r == f.pos && View() == f
    {
      var off := match whence case SET => pos case END => vsize + pos case CUR => curpos + pos;
      if off < 0 || off > vsize { return -1; }
      curpos := off;
      r := off;
    }
  }

  /** fmemopen: opens for a nonzero size, a valid mode, and a buffer or a mode with plus. */
  method Open(buf: array?<byte>, size: nat, mode: string) returns (r: Option<Stream>)
    requires buf != null ==> buf.Length == size
    ensures r.Some? <==> size > 0 && IsMode(mode) && (buf != null || HasPlus(mode))
    ensures r.Some? ==>
              && fresh(r.value) && r.value.Valid() && r.value.rsize == size
              && (if buf != null then r.value.buf == buf else fresh(r.value.buf))
              && r.value.View() == Opened(r.value.buf[..], r.value.flags, buf == null)
              && (r.value.flags.read <==> mode[0] == 'r' || HasPlus(mode))
              && (r.value.flags.write <==> mode[0] == 'w' || HasPlus(mode))
              && (r.value.flags.append <==> mode[0] == 'a') && (r.value.flags.truncate <==> mode[0] == 'w')
  {
    if size == 0 { return None; }
    var flags := TypeToFlags(mode);
    if flags == NONE { return None; }
    var s;
    if buf == null {
      if !(flags.read && flags.write) { return None; }
      var own := new byte[size];
      s := new Stream(own, flags, true);
    } else {
      s := new Stream(buf, flags, false);
    }
    r := Some(s);
  }

  /** The first zero byte, or the length. */
  function EndOf(s: seq<byte>): (n: nat)
    ensures n <= |s| && (n < |s| ==> s[n] == 0) && forall i | 0 <= i < n :: s[i] != 0
  {
    if s == [] || s[0] == 0 then 0 else 1 + EndOf(s[1..])
  }

  /** find_end */
  method FindEnd(buf: array<byte>) returns (off: nat)
    ensures off == EndOf(buf[..])
  {
    off := 0;
    while off < buf.Length
      invariant off <= buf.Length && forall i | 0 <= i < off :: buf[i] != 0
    {
      if buf[off] == 0 { break; }
      off := off + 1;
    }
  }

  /** A stream of eight bytes of its own: two bytes written, found again from all three origins, and read back. */
  method Session() returns (r: Option<seq<byte>>, at: seq<int>)
    ensures r == Some([97, 98]) && at == [2, 2, 0, 1, 2, -1, 0]
  {
    hide WriteSpec, Harmless, Zeroed, Opened, ReadSpec, SeekSpec;
    assert "w+"[1] == '+' && HasPlus("w+") && IsMode("w+");
    var s := Open(null, 8, "w+");
    var stream := s.value;
    OpenedMeans(stream.buf[..], stream.flags, true);
    var n := WriteTwo(stream);
    var seeks;
    seeks, r := SeekAbout(stream);
    at := [n] + seeks;
  }

  method WriteTwo(stream: Stream) returns (n: int)
    requires stream.Valid() && stream.rsize == 8 && stream.View() == Abs([], 0)
    requires stream.flags.read && stream.flags.write && !stream.flags.append
    modifies stream, stream.buf
    ensures stream.Valid() && stream.buf == old(stream.buf) && stream.flags == old(stream.flags)
    ensures n == 2 && stream.View() == Abs([97, 98], 2)
  {
    hide Harmless, Zeroed, WriteSpec;
    TwoWritten();
    n := stream.Write([97, 98]);
  }

  lemma TwoWritten()
    ensures WriteSpec(Abs([], 0), [97, 98], 8, false) == (Abs([97, 98], 2), 2)
  {
    var d: seq<byte> := [97, 98];
    assert d[..2] == d && WriteSpec(Abs([], 0), d, 8, false).0.data == d;
  }

  method SeekAbout(stream: Stream) returns (at: seq<int>, r: Option<seq<byte>>)
    requires stream.Valid() && stream.View() == Abs([97, 98], 2) && stream.flags.read
    modifies stream
    ensures at == [2, 0, 1, 2, -1, 0] && r == Some([97, 98])
  {
    SeekMeans(Abs([97, 98], 2), 0);
    hide SeekSpec, ReadSpec;
    SeekSamples();
    var a := stream.Seek(0, CUR);
    var b := stream.Seek(-2, CUR);
    var c := stream.Seek(-1, END);
    var d := stream.Seek(0, END);
    var e := stream.Seek(1, END);
    var f := stream.Seek(0, SET);
    r := stream.Read(5);
    at := [a, b, c, d, e, f];
  }

  lemma SeekSamples()
    ensures SeekSpec(Abs([97, 98], 2), 0, CUR) == Some(Abs([97, 98], 2))
    ensures SeekSpec(Abs([97, 98], 2), -2, CUR) == Some(Abs([97, 98], 0))
    ensures SeekSpec(Abs([97, 98], 0), -1, END) == Some(Abs([97, 98], 1))
    ensures SeekSpec(Abs([97, 98], 1), 0, END) == Some(Abs([97, 98], 2))
    ensures SeekSpec(Abs([97, 98], 2), 1, END) == None
    ensures SeekSpec(Abs([97, 98], 2), 0, SET) == Some(Abs([97, 98], 0))
    ensures ReadSpec(Abs([97, 98], 0), 5) == (Abs([97, 98], 2), [97, 98])
  {
    assert [97, 98][0..2] == [97, 98];
  }
}
