/** ROT13 with asynchronous I/O: eight buffers, each in turn unused, being read, being written. Reads
    and writes finish in any order; the output does not depend on it. */
module Rot13 {
  import opened Bytes

  const BSZ := 4096
  const NBUF := 8

  // ----- translate -----

  predicate IsAlpha(c: byte) { 'A' as int <= c as int <= 'Z' as int || 'a' as int <= c as int <= 'z' as int }

  function Translate(c: byte): byte {
    if !IsAlpha(c) then c
    else if c >= 'n' as byte then c - 13
    else if c >= 'a' as byte then c + 13
    else if c >= 'N' as byte then c - 13
    else c + 13
  }

  function TranslateAll(s: seq<byte>): seq<byte> { seq(|s|, i requires 0 <= i < |s| => Translate(s[i])) }

  lemma TranslateByte(c: byte)
    ensures Translate(Translate(c)) == c && (IsAlpha(Translate(c)) <==> IsAlpha(c))
    ensures IsAlpha(c) ==> Translate(c) != c && (Translate(c) >= 'a' as byte <==> c >= 'a' as byte)
    ensures Rotated(c as int, Translate(c) as int)
  {
  }

  /** Letters are 13 places further around their alphabet, everything else is as it was. ASCII codes. */
  predicate Rotated(c: int, d: int) {
    if 97 <= c <= 122 then 97 <= d <= 122 && d - 97 == (c - 97 + 13) % 26
    else if 65 <= c <= 90 then 65 <= d <= 90 && d - 65 == (c - 65 + 13) % 26
    else d == c
  }

  /** The text "Hello, World!" and its translation. */
  lemma TranslateSample()
    ensures TranslateAll([72, 101, 108, 108, 111, 44, 32, 87, 111, 114, 108, 100, 33])
            == [85, 114, 121, 121, 98, 44, 32, 74, 98, 101, 121, 113, 33]
  {
  }

  /** Every letter is rotated by 13 within its case, everything else stays; so translating twice gives back the
      text. */
  lemma TranslateTwice(s: seq<byte>)
    ensures TranslateAll(TranslateAll(s)) == s
    ensures |TranslateAll(s)| == |s|
    ensures forall i | 0 <= i < |s| ::
              var c, d := s[i] as int, TranslateAll(s)[i] as int;
              if 'a' as int <= c <= 'z' as int then d - 'a' as int == (c - 'a' as int + 13) % 26
              else if 'A' as int <= c <= 'Z' as int then d - 'A' as int == (c - 'A' as int + 13) % 26
              else d == c
    ensures forall i | 0 <= i < |s| :: IsAlpha(TranslateAll(s)[i]) <==> IsAlpha(s[i])
    ensures forall i | 0 <= i < |s| && IsAlpha(s[i]) ::
              TranslateAll(s)[i] != s[i] && (TranslateAll(s)[i] >= 'a' as byte <==> s[i] >= 'a' as byte)
  {
    hide Translate, IsAlpha;
    forall i | 0 <= i < |s| ensures Translate(Translate(s[i])) == s[i] { TranslateByte(s[i]); }
    forall i | 0 <= i < |s| ensures Rotated(s[i] as int, TranslateAll(s)[i] as int) { TranslateByte(s[i]); }
    forall i | 0 <= i < |s|
      ensures (IsAlpha(TranslateAll(s)[i]) <==> IsAlpha(s[i]))
              && (IsAlpha(s[i]) ==>
                    TranslateAll(s)[i] != s[i] && (TranslateAll(s)[i] >= 'a' as byte <==> s[i] >= 'a' as byte))
    {
      TranslateByte(s[i]);
    }
  }

  lemma AllRotated(s: seq<byte>)
    ensures |TranslateAll(s)| == |s| && forall i | 0 <= i < |s| :: Rotated(s[i] as int, TranslateAll(s)[i] as int)
  {
    hide Translate, Rotated;
    forall i | 0 <= i < |s| ensures Rotated(s[i] as int, TranslateAll(s)[i] as int) { TranslateByte(s[i]); }
  }

  // ----- files -----

  predicate IsOffset(o: nat) { o % BSZ == 0 }

  /** The bytes a read of BSZ bytes at o returns. */
  function Block(input: seq<byte>, o: nat): seq<byte>
    requires o < |input|
  {
    if o + BSZ <= |input| then input[o..o + BSZ] else input[o..]
  }

  /** A write at o; a gap before it reads as zeros. */
  function WriteAt(f: seq<byte>, o: nat, d: seq<byte>): (r: seq<byte>)
    ensures |r| == if |f| >= o + |d| then |f| else o + |d|
    ensures r[o..o + |d|] == d
    ensures forall k | 0 <= k < |f| && !(o <= k < o + |d|) :: r[k] == f[k]
  {
    var g := if |f| < o then f + seq(o - |f|, _ => 0) else f;
    var r := g[..o] + d + (if |g| >= o + |d| then g[o + |d|..] else []);
    assert r[o..o + |d|] == d;
    r
  }

  /** The block at o is in the output, translated. */
  predicate Holds(f: seq<byte>, input: seq<byte>, o: nat)
    requires o < |input|
  {
    var t := TranslateAll(Block(input, o));
    o + |t| <= |f| && f[o..o + |t|] == t
  }

  /** Writing one block leaves the others. */
  lemma HoldsKept(f: seq<byte>, input: seq<byte>, o: nat, e: nat)
    requires o < |input| && e < |input| && IsOffset(o) && IsOffset(e) && o != e && Holds(f, input, o)
    ensures Holds(WriteAt(f, e, TranslateAll(Block(input, e))), input, o)
  {
    var t, d := TranslateAll(Block(input, o)), TranslateAll(Block(input, e));
    var r := WriteAt(f, e, d);
    assert o + BSZ <= e || e + BSZ <= o;
    forall k | 0 <= k < |t| ensures r[o + k] == t[k] {
      assert r[o + k] == f[o + k] == f[o..o + |t|][k];
    }
    assert r[o..o + |t|] == t;
  }

  lemma HoldsWritten(f: seq<byte>, input: seq<byte>, e: nat)
    requires e < |input|
    ensures Holds(WriteAt(f, e, TranslateAll(Block(input, e))), input, e)
  {
  }

  /** The block a byte is in. */
  function Start(k: nat): (o: nat)
    ensures IsOffset(o) && o <= k < o + BSZ
  {
    k - k % BSZ
  }

  lemma HoldsByte(f: seq<byte>, input: seq<byte>, k: nat)
    requires k < |input| && Holds(f, input, Start(k))
    ensures k < |f| && f[k] == Translate(input[k])
  {
    hide Translate;
    var o := Start(k);
    var t := TranslateAll(Block(input, o));
    assert f[o..o + |t|][k - o] == f[k];
  }

  /** With every block in place the output is the translated input. */
  lemma AllHold(f: seq<byte>, input: seq<byte>)
    requires |f| <= |input| && forall o | 0 <= o < |input| && IsOffset(o) :: Holds(f, input, o)
    ensures f == TranslateAll(input)
  {
    hide Holds, Translate;
    forall k | 0 <= k < |input| ensures k < |f| && f[k] == Translate(input[k]) {
      assert Holds(f, input, Start(k));
      HoldsByte(f, input, k);
    }
    if |input| > 0 {
      assert Holds(f, input, Start(|input| - 1));
      HoldsByte(f, input, |input| - 1);
    }
  }

  // ----- the buffers -----

  datatype Op = UNUSED | READ_PENDING | WRITE_PENDING

  /** struct buf with its aiocb; complete says that the kernel has finished the request. */
  datatype Buf = Buf(op: Op, last: bool, offset: nat, nbytes: nat, data: seq<byte>, complete: bool)

  predicate BufOk(b: Buf, input: seq<byte>, off: nat, output: seq<byte>) {
    b.op == UNUSED ||
    (&& b.offset < off && b.offset < |input| && IsOffset(b.offset)
     && (b.op == READ_PENDING ==>
           && (b.offset + BSZ >= |input| ==> b.last)
           && (b.complete ==> b.data == Block(input, b.offset)))
     && (b.op == WRITE_PENDING ==>
           && b.data == TranslateAll(Block(input, b.offset)) && b.nbytes == |b.data|
           && (b.complete ==> Holds(output, input, b.offset))))
  }

  function Steps(op: Op): nat { match op case UNUSED => 0 case READ_PENDING => 2 case WRITE_PENDING => 1 }

  function Pending(bufs: seq<Buf>): nat {
    if bufs == [] then 0 else (if bufs[0].op == UNUSED then 0 else 1) + Pending(bufs[1..])
  }

  /** What is left to do: three steps for a block not yet asked for, two for one being read, one for
      one being written. */
  function Work(bufs: seq<Buf>): nat { if bufs == [] then 0 else Steps(bufs[0].op) + Work(bufs[1..]) }

  function Unread(size: nat, off: nat): nat { if off < size then (size - off + BSZ - 1) / BSZ else 0 }

  lemma {:induction false} Counts(bufs: seq<Buf>, i: nat, b: Buf)
    requires i < |bufs|
    ensures Work(bufs[i := b]) + Steps(bufs[i].op) == Work(bufs) + Steps(b.op)
    ensures Pending(bufs[i := b]) + (if bufs[i].op == UNUSED then 0 else 1)
            == Pending(bufs) + if b.op == UNUSED then 0 else 1
  {
    if i == 0 {
      assert bufs[0 := b][1..] == bufs[1..];
    } else {
      assert bufs[i := b][1..] == bufs[1..][i - 1 := b];
      Counts(bufs[1..], i - 1, b);
    }
  }

  lemma {:induction false} NonePending(bufs: seq<Buf>)
    ensures Pending(bufs) == 0 <==> forall i | 0 <= i < |bufs| :: bufs[i].op == UNUSED
  {
    if bufs != [] {
      NonePending(bufs[1..]);
      assert (forall i | 0 <= i < |bufs| :: bufs[i].op == UNUSED) ==>
          forall i | 0 <= i < |bufs| - 1 :: bufs[1..][i] == bufs[i + 1];
      if Pending(bufs) == 0 {
        forall i | 0 <= i < |bufs| ensures bufs[i].op == UNUSED { if i > 0 { assert bufs[i] == bufs[1..][i - 1]; } }
      }
    }
  }

  predicate Distinct(bufs: seq<Buf>) {
    forall i, j | 0 <= i < j < |bufs| && bufs[i].op != UNUSED && bufs[j].op != UNUSED ::
      bufs[i].offset != bufs[j].offset
  }

  /** Each block asked for so far is in the output or in one of the buffers. */
  predicate Covered(bufs: seq<Buf>, input: seq<byte>, off: nat, output: seq<byte>) {
    forall o | 0 <= o < off && o < |input| && IsOffset(o) ::
      Holds(output, input, o) || exists i :: 0 <= i < |bufs| && bufs[i].op != UNUSED && bufs[i].offset == o
  }

  predicate Sound(bufs: seq<Buf>, input: seq<byte>, off: nat, output: seq<byte>) {
    && |output| <= |input| && IsOffset(off)
    && (forall i | 0 <= i < |bufs| :: BufOk(bufs[i], input, off, output))
    && Distinct(bufs)
    && Covered(bufs, input, off, output)
  }

  // ----- one event -----

  /** The kernel finishes a request. */
  function Completed(b: Buf, input: seq<byte>): Buf
    requires b.offset < |input|
  {
    if b.op == READ_PENDING then b.(data := Block(input, b.offset), complete := true) else b.(complete := true)
  }

  lemma CompleteSound(bufs: seq<Buf>, i: nat, input: seq<byte>, off: nat, output: seq<byte>)
    requires Sound(bufs, input, off, output) && i < |bufs| && bufs[i].op != UNUSED && !bufs[i].complete
    ensures bufs[i].offset < |input|
    ensures Sound(bufs[i := Completed(bufs[i], input)], input, off,
                  if bufs[i].op == WRITE_PENDING then WriteAt(output, bufs[i].offset, bufs[i].data) else output)
  {
    hide Holds, WriteAt;
    assert BufOk(bufs[i], input, off, output);
    var bufs' := bufs[i := Completed(bufs[i], input)];
    if bufs[i].op == WRITE_PENDING {
      WriteSound(bufs, i, input, off, output);
    } else {
      CoveredKept(bufs, bufs', input, off, output, output);
    }
  }

  lemma CoveredKept(bufs: seq<Buf>, bufs': seq<Buf>, input: seq<byte>, off: nat, output: seq<byte>, output': seq<byte>)
    requires Covered(bufs, input, off, output) && |bufs'| == |bufs|
    requires forall i | 0 <= i < |bufs| && bufs[i].op != UNUSED ::
               bufs'[i].op != UNUSED && bufs'[i].offset == bufs[i].offset
    requires forall o | 0 <= o < off && o < |input| && IsOffset(o) && Holds(output, input, o) ::
               Holds(output', input, o)
    ensures Covered(bufs', input, off, output')
  {
    hide Holds;
    forall o | 0 <= o < off && o < |input| && IsOffset(o)
      ensures Holds(output', input, o) || exists i :: 0 <= i < |bufs'| && bufs'[i].op != UNUSED && bufs'[i].offset == o
    {
      if !Holds(output, input, o) {
        var i :| 0 <= i < |bufs| && bufs[i].op != UNUSED && bufs[i].offset == o;
        assert bufs'[i].op != UNUSED && bufs'[i].offset == o;
      }
    }
  }

  lemma WriteSound(bufs: seq<Buf>, i: nat, input: seq<byte>, off: nat, output: seq<byte>)
    requires Sound(bufs, input, off, output) && i < |bufs| && bufs[i].op == WRITE_PENDING
    ensures Sound(bufs[i := bufs[i].(complete := true)], input, off, WriteAt(output, bufs[i].offset, bufs[i].data))
  {
    var e, bufs' := bufs[i].offset, bufs[i := bufs[i].(complete := true)];
    assert BufOk(bufs[i], input, off, output);
    var output' := WriteAt(output, e, bufs[i].data);
    HoldsWritten(output, input, e);
    forall o | 0 <= o < |input| && IsOffset(o) && Holds(output, input, o) ensures Holds(output', input, o) {
      if o != e { HoldsKept(output, input, o, e); }
    }
    hide Holds, WriteAt;
    CoveredKept(bufs, bufs', input, off, output, output');
  }

  /** A read of the next block is started in a buffer not in use. */
  lemma StartSound(bufs: seq<Buf>, i: nat, input: seq<byte>, off: nat, output: seq<byte>, b: Buf)
    requires Sound(bufs, input, off, output) && i < |bufs| && bufs[i].op == UNUSED && off < |input|
    requires b.op == READ_PENDING && b.offset == off && !b.complete && (off + BSZ >= |input| ==> b.last)
    ensures Sound(bufs[i := b], input, off + BSZ, output)
  {
    hide Holds;
    var bufs' := bufs[i := b];
    forall j | 0 <= j < |bufs| ensures BufOk(bufs'[j], input, off + BSZ, output) {
      assert BufOk(bufs[j], input, off, output);
    }
    forall o | 0 <= o < off + BSZ && o < |input| && IsOffset(o)
      ensures Holds(output, input, o) || exists j :: 0 <= j < |bufs'| && bufs'[j].op != UNUSED && bufs'[j].offset == o
    {
      if o >= off {
        assert bufs'[i].offset == o;
      } else if !Holds(output, input, o) {
        var j :| 0 <= j < |bufs| && bufs[j].op != UNUSED && bufs[j].offset == o;
        assert bufs'[j] == bufs[j];
      }
    }
  }

  /** A finished read becomes a write of the translated block; a short block is the last. */
  lemma TurnSound(bufs: seq<Buf>, i: nat, input: seq<byte>, off: nat, output: seq<byte>)
    requires Sound(bufs, input, off, output) && i < |bufs| && bufs[i].op == READ_PENDING && bufs[i].complete
    ensures |bufs[i].data| == BSZ || bufs[i].last
    ensures var b := bufs[i].(op := WRITE_PENDING, data := TranslateAll(bufs[i].data), nbytes := |bufs[i].data|,
                              complete := false);
            Sound(bufs[i := b], input, off, output)
  {
    hide Holds, TranslateAll;
    var b := bufs[i].(op := WRITE_PENDING, data := TranslateAll(bufs[i].data), nbytes := |bufs[i].data|,
                      complete := false);
    assert BufOk(bufs[i], input, off, output);
    assert |TranslateAll(bufs[i].data)| == |bufs[i].data| by { TranslateLength(bufs[i].data); }
    CoveredKept(bufs, bufs[i := b], input, off, output, output);
  }

  lemma TranslateLength(s: seq<byte>)
    ensures |TranslateAll(s)| == |s|
  {
  }

  /** A finished write frees its buffer. */
  lemma FreeSound(bufs: seq<Buf>, i: nat, input: seq<byte>, off: nat, output: seq<byte>)
    requires Sound(bufs, input, off, output) && i < |bufs| && bufs[i].op == WRITE_PENDING && bufs[i].complete
    ensures Sound(bufs[i := bufs[i].(op := UNUSED)], input, off, output)
  {
    hide Holds, TranslateAll;
    var bufs' := bufs[i := bufs[i].(op := UNUSED)];
    assert BufOk(bufs[i], input, off, output);
    forall o | 0 <= o < off && o < |input| && IsOffset(o)
      ensures Holds(output, input, o) || exists j :: 0 <= j < |bufs'| && bufs'[j].op != UNUSED && bufs'[j].offset == o
    {
      if !Holds(output, input, o) {
        var j :| 0 <= j < |bufs| && bufs[j].op != UNUSED && bufs[j].offset == o;
        assert bufs'[j] == bufs[j];
      }
    }
  }

  /** Nothing pending, everything read: the job is done. */
  lemma DoneSound(bufs: seq<Buf>, input: seq<byte>, off: nat, output: seq<byte>)
    requires Sound(bufs, input, off, output) && Pending(bufs) == 0 && off >= |input|
    ensures output == TranslateAll(input)
  {
    hide Holds, TranslateAll;
    NonePending(bufs);
    AllHold(output, input);
  }

  lemma NothingToDo(bufs: seq<Buf>, input: seq<byte>, off: nat, output: seq<byte>)
    requires Sound(bufs, input, off, output) && input == []
    ensures Pending(bufs) == 0
  {
    hide Holds, TranslateAll;
    forall i | 0 <= i < |bufs| ensures bufs[i].op == UNUSED { assert BufOk(bufs[i], input, off, output); }
    NonePending(bufs);
  }

  // ----- main -----

  /** bufs[i] is worth Steps(bufs[i].op) steps; the unread blocks three each. */
  function Left(bufs: seq<Buf>, size: nat, off: nat): nat { 3 * Unread(size, off) + Work(bufs) }

  class Pipeline {
    const input: seq<byte>
    var output: seq<byte>
    var bufs: array<Buf>
    var aiolist: array<bool>   // which entries are not NULL
    var off: nat
    var numop: nat

    ghost predicate Valid()
      reads this, bufs, aiolist
    {
      && bufs.Length == NBUF && aiolist.Length == NBUF
      && Sound(bufs[..], input, off, output)
      && numop == Pending(bufs[..])
      && forall i | 0 <= i < NBUF :: aiolist[i] <==> bufs[i].op != UNUSED
    }

    /** A request the kernel has finished and main has not yet looked at. */
    ghost predicate Ready(from: nat)
      requires bufs.Length == NBUF
      reads this, bufs
    {
      exists i :: from <= i < NBUF && bufs[i].op != UNUSED && bufs[i].complete
    }

    constructor (input: seq<byte>)
      ensures Valid() && fresh(bufs) && fresh(aiolist) && this.input == input && off == 0 && numop == 0
    {
      this.input, output, off, numop := input, [], 0, 0;
      bufs := new Buf[NBUF](_ => Buf(UNUSED, false, 0, 0, [], false));
      aiolist := new bool[NBUF](_ => false);
      new;
      NonePending(bufs[..]);
    }

    method Complete(i: nat)
      requires Valid() && i < NBUF && bufs[i].op != UNUSED && !bufs[i].complete
      modifies this`output, bufs
      ensures Valid() && bufs[i].complete && bufs[i].op == old(bufs[i].op)
      ensures forall j | 0 <= j < NBUF && j != i :: bufs[j] == old(bufs[j])
      ensures Work(bufs[..]) == old(Work(bufs[..]))
    {
      CompleteSound(bufs[..], i, input, off, output);
      var b := Completed(bufs[i], input);
      Counts(bufs[..], i, b);
      hide Sound;
      if bufs[i].op == WRITE_PENDING { output := WriteAt(output, bufs[i].offset, bufs[i].data); }
      ghost var was := bufs[..];
      bufs[i] := b;
      assert bufs[..] == was[i := b];
    }

    /** Whatever requests the kernel chooses to finish meanwhile. */
    method Kernel()
      requires Valid()
      modifies this`output, bufs
      ensures Valid() && Work(bufs[..]) == old(Work(bufs[..]))
      ensures forall j | 0 <= j < NBUF :: bufs[j].op == old(bufs[j].op) && (old(bufs[j].complete) ==> bufs[j].complete)
    {
      for i := 0 to NBUF
        invariant Valid() && Work(bufs[..]) == old(Work(bufs[..]))
        invariant forall j | 0 <= j < NBUF ::
                    bufs[j].op == old(bufs[j].op) && (old(bufs[j].complete) ==> bufs[j].complete)
      {
        var finishes: bool := *;
        if finishes && bufs[i].op != UNUSED && !bufs[i].complete { Complete(i); }
      }
    }

    /** aio_suspend: returns when at least one of the listed requests is finished. */
    method Suspend()
      requires Valid() && numop != 0
      modifies this`output, bufs
      ensures Valid() && Work(bufs[..]) == old(Work(bufs[..])) && Ready(0)
    {
      Kernel();
      NonePending(bufs[..]);
      var i :| 0 <= i < NBUF && bufs[i].op != UNUSED;
      if !bufs[i].complete { Complete(i); }
    }

    /** One buffer, whatever its state. reliable: no request fails. */
    method Serve(i: nat, reliable: bool) returns (ok: bool)
      requires Valid() && i < NBUF
      modifies this`output, this`off, this`numop, bufs, aiolist
      ensures reliable ==> ok
      ensures ok ==> Valid()
      ensures ok ==> forall j | 0 <= j < NBUF && j != i ::
                bufs[j].op == old(bufs[j].op) && (old(bufs[j].complete) ==> bufs[j].complete)
      ensures ok ==> Left(bufs[..], |input|, off) <= old(Left(bufs[..], |input|, off))
      ensures ok && ((old(bufs[i].op) == UNUSED && old(off) < |input|)
                     || old(bufs[i].op != UNUSED && bufs[i].complete)) ==>
                Left(bufs[..], |input|, off) < old(Left(bufs[..], |input|, off))
    {
      Kernel();
      var fails: bool := *;
      if fails && !reliable { return false; }
      match bufs[i].op {
        case UNUSED => if off < |input| { StartRead(i); }
        case READ_PENDING => if bufs[i].complete { FinishRead(i); }
        case WRITE_PENDING => if bufs[i].complete { FinishWrite(i); }
      }
      ok := true;
    }

    method StartRead(i: nat)
      requires Valid() && i < NBUF && bufs[i].op == UNUSED && off < |input|
      modifies this`off, this`numop, bufs, aiolist
      ensures Valid() && forall j | 0 <= j < NBUF && j != i :: bufs[j] == old(bufs[j])
      ensures Left(bufs[..], |input|, off) < old(Left(bufs[..], |input|, off))
    {
      var b := Buf(READ_PENDING, bufs[i].last || off + BSZ >= |input|, off, BSZ, bufs[i].data, false);
      StartSound(bufs[..], i, input, off, output, b);
      Counts(bufs[..], i, b);
      hide Sound;
      ghost var was := bufs[..];
      bufs[i] := b;
      assert bufs[..] == was[i := b];
      off := off + BSZ;
      aiolist[i] := true;
      numop := numop + 1;
    }

    method FinishRead(i: nat)
      requires Valid() && i < NBUF && bufs[i].op == READ_PENDING && bufs[i].complete
      modifies bufs
      ensures Valid() && forall j | 0 <= j < NBUF && j != i :: bufs[j] == old(bufs[j])
      ensures Left(bufs[..], |input|, off) < old(Left(bufs[..], |input|, off))
    {
      var n := |bufs[i].data|;
      TurnSound(bufs[..], i, input, off, output);
      assert n == BSZ || bufs[i].last;
      var b := bufs[i].(op := WRITE_PENDING, data := TranslateAll(bufs[i].data), nbytes := n, complete := false);
      Counts(bufs[..], i, b);
      hide Sound;
      ghost var was := bufs[..];
      bufs[i] := b;
      assert bufs[..] == was[i := b];
    }

    method FinishWrite(i: nat)
      requires Valid() && i < NBUF && bufs[i].op == WRITE_PENDING && bufs[i].complete
      modifies bufs, this`numop, aiolist
      ensures Valid() && forall j | 0 <= j < NBUF && j != i :: bufs[j] == old(bufs[j])
      ensures Left(bufs[..], |input|, off) < old(Left(bufs[..], |input|, off))
    {
      FreeSound(bufs[..], i, input, off, output);
      var b := bufs[i].(op := UNUSED);
      Counts(bufs[..], i, b);
      hide Sound;
      ghost var was := bufs[..];
      bufs[i] := b;
      assert bufs[..] == was[i := b];
      aiolist[i] := false;
      numop := numop - 1;
    }

    ghost predicate AllUnused(from: nat)
      requires bufs.Length == NBUF
      reads this, bufs
    {
      forall j | from <= j < NBUF :: bufs[j].op == UNUSED
    }

    /** One pass over the buffers; with something finished or something to read, it gets on. */
    method Pass(reliable: bool) returns (ok: bool)
      requires Valid() && ((AllUnused(0) && off < |input|) || |input| == 0 || Ready(0))
      modifies this`output, this`off, this`numop, bufs, aiolist
      ensures reliable ==> ok
      ensures ok ==> Valid()
      ensures ok && |input| > 0 ==> Left(bufs[..], |input|, off) < old(Left(bufs[..], |input|, off))
      ensures ok && |input| == 0 ==> numop == 0
    {
      hide Sound, Work, Unread, Pending, Left;
      ghost var before := Left(bufs[..], |input|, off);
      for i := 0 to NBUF
        invariant Valid() && Left(bufs[..], |input|, off) <= before
        invariant |input| == 0 || Left(bufs[..], |input|, off) < before || Ready(i)
                  || (off < |input| && AllUnused(i) && i < NBUF)
      {
        ok := Serve(i, reliable);
        if !ok { return; }
      }
      if |input| == 0 { NothingToDo(bufs[..], input, off, output); }
      ok := true;
    }

    /** The endless loop of main: it ends, and then the output is the translated input, whatever order
        the requests finished in. */
    method Run(reliable: bool) returns (ok: bool)
      requires Valid() && off == 0 && numop == 0
      modifies this`output, this`off, this`numop, bufs, aiolist
      ensures reliable ==> ok
      ensures ok ==> output == TranslateAll(input)
      ensures ok ==> |output| == |input| && forall i | 0 <= i < |input| :: Rotated(input[i] as int, output[i] as int)
    {
      hide Sound, Work, Unread, Translate, Rotated;
      AllRotated(input);
      NonePending(bufs[..]);
      while true
        invariant Valid() && ((AllUnused(0) && off < |input|) || |input| == 0 || Ready(0))
        decreases Left(bufs[..], |input|, off)
      {
        ok := Pass(reliable);
        if !ok { return; }
        if numop == 0 {
          if off >= |input| {
            DoneSound(bufs[..], input, off, output);
            return true;
          }
          NonePending(bufs[..]);
        } else {
          Suspend();
        }
      }
    }
  }
}
