/** The skip and count window of hexdump (nsh_dbgcmds.c): the file arrives in whatever
    pieces read() delivers, through one reused buffer. */
module HexDump {
  import opened Sequences

  type Byte = bv8

  /** One nsh_dumpbuffer call: the position in its title and the bytes it prints. */
  datatype Dump = Dump(position: int, bytes: seq<Byte>)

  function Max(a: int, b: int): int {
    if a < b then b else a
  }

  function Min(a: int, b: int): int {
    if a < b then a else b
  }

  /** What the reads deliver, put together. */
  function Flat(chunks: seq<seq<Byte>>): seq<Byte> {
    if chunks == [] then [] else Flat(chunks[..|chunks| - 1]) + chunks[|chunks| - 1]
  }

  function Bytes(dumps: seq<Dump>): seq<Byte> {
    if dumps == [] then [] else Bytes(dumps[..|dumps| - 1]) + dumps[|dumps| - 1].bytes
  }

  /** The bytes of the file from `skip` on, `count` of them at most. */
  function Window(file: seq<Byte>, skip: nat, count: nat): seq<Byte> {
    file[Min(skip, |file|)..Min(skip + count, |file|)]
  }

  /** The bytes from `skip` on. */
  function Tail(s: seq<Byte>, skip: nat): seq<Byte> {
    s[Min(skip, |s|)..]
  }

  /** A dump's title tells where in the file its bytes are. */
  predicate Titled(d: Dump, file: seq<Byte>) {
    0 <= d.position && d.position + |d.bytes| <= |file|
    && file[d.position..d.position + |d.bytes|] == d.bytes
  }

  lemma {:induction false} FlatPrefix(chunks: seq<seq<Byte>>, i: nat)
    requires i <= |chunks|
    ensures Flat(chunks[..i]) <= Flat(chunks)
    decreases |chunks|
  {
    if i == |chunks| {
      assert chunks[..i] == chunks;
    } else {
      var front := chunks[..|chunks| - 1];
      FlatPrefix(front, i);
      assert front[..i] == chunks[..i];
    }
  }

  lemma FlatSnoc(chunks: seq<seq<Byte>>, i: nat)
    requires i < |chunks|
    ensures Flat(chunks[..i + 1]) == Flat(chunks[..i]) + chunks[i]
  {
    assert chunks[..i + 1][..i] == chunks[..i];
  }

  lemma BytesSnoc(dumps: seq<Dump>, d: Dump)
    ensures Bytes(dumps + [d]) == Bytes(dumps) + d.bytes
  {
    assert (dumps + [d])[..|dumps|] == dumps;
  }

  /** read(): the next piece, into the front of the buffer. */
  method Read(buffer: array<Byte>, chunk: seq<Byte>)
    requires |chunk| <= buffer.Length
    modifies buffer
    ensures buffer[..|chunk|] == chunk
  {
    for i := 0 to |chunk|
      invariant buffer[..i] == chunk[..i]
    {
      buffer[i] := chunk[i];
    }
  }

  /** nsh_dumpbuffer prints nothing when the length is negative. */
  method DumpBuffer(position: int, buffer: array<Byte>, from: nat, nbytes: int) returns (d: Dump)
    requires from + Max(nbytes, 0) <= buffer.Length
    ensures d == Dump(position, buffer[from..from + Max(nbytes, 0)])
  {
    var bytes := [];
    var i := 0;
    while i < nbytes
      invariant 0 <= i <= Max(nbytes, 0) && bytes == buffer[from..from + i]
    {
      bytes := bytes + [buffer[from + i]];
      i := i + 1;
    }
    d := Dump(position, bytes);
  }

  /** cmd_hexdump's loop. The pieces are followed by the end of the file or by a read
      error. Negative arguments act as zero. */
  method Hexdump(size: nat, chunks: seq<seq<Byte>>, fails: bool, skipArg: int, countArg: int)
      returns (dumps: seq<Dump>, ok: bool)
    requires forall c :: c in chunks ==> 0 < |c| <= size
    ensures Bytes(dumps) == Window(Flat(chunks), Max(skipArg, 0), Max(countArg, 0))
    ensures forall d :: d in dumps ==> Titled(d, Flat(chunks))
    ensures ok <==> !fails || (|Flat(chunks)| > Max(skipArg, 0) && |Flat(chunks)| >= Max(skipArg, 0) + Max(countArg, 0))
  {
    hide Flat, Bytes, Window, Tail, Titled;
    ghost var file, from, length := Flat(chunks), Max(skipArg, 0), Max(countArg, 0);
    var buffer := new Byte[size];
    var skip, count, position := skipArg, countArg, 0;
    dumps, ok := [], true;
    var i := 0;
    NothingYet(chunks, from);
    while true
      invariant 0 <= i <= |chunks| && ok && position == |Flat(chunks[..i])|
      invariant if position <= from then count == countArg else 0 < count == length - (position - from)
      invariant Bytes(dumps) == Tail(Flat(chunks[..i]), from)
      invariant forall d :: d in dumps ==> Titled(d, file)
      decreases |chunks| - i
    {
      if i == |chunks| {
        assert chunks[..i] == chunks;
        WholeTail(file, from, length);
        ok := !fails;
        break;
      }
      ghost var before := Flat(chunks[..i]);
      var chunk := chunks[i];
      Read(buffer, chunk);
      FlatSnoc(chunks, i);
      FlatPrefix(chunks, i + 1);
      var nbytesread := |chunk|;
      i := i + 1;
      if position < skip {
        position := position + nbytesread;
        if position > skip {
          var dumpbytes := position - skip;
          if dumpbytes > count {
            dumpbytes := count;
          }
          var start := nbytesread - (position - skip);
          var d := DumpBuffer(skip, buffer, start, dumpbytes);
          Piece(file, before, chunk, buffer[..], start, d, from, length);
          BytesSnoc(dumps, d);
          dumps := dumps + [d];
          if count > dumpbytes {
            count := count - dumpbytes;
          } else {
            break;
          }
        } else {
          StillSkipping(before + chunk, before, from);
        }
        continue;
      }
      if nbytesread > count {
        nbytesread := count;
      }
      var d := DumpBuffer(position, buffer, 0, nbytesread);
      Piece(file, before, chunk, buffer[..], 0, d, from, length);
      BytesSnoc(dumps, d);
      dumps := dumps + [d];
      position := position + nbytesread;
      if count > nbytesread {
        count := count - nbytesread;
      } else {
        break;
      }
    }
  }

  lemma NothingYet(chunks: seq<seq<Byte>>, from: nat)
    ensures Flat(chunks[..0]) == [] && Bytes([]) == [] && Tail([], from) == []
  {
  }

  lemma StillSkipping(s: seq<Byte>, s': seq<Byte>, from: nat)
    requires |s| <= from && |s'| <= from
    ensures Tail(s, from) == Tail(s', from) == []
  {
  }

  /** At the end of the file everything from `skip` on lies in the window. */
  lemma WholeTail(file: seq<Byte>, from: nat, length: nat)
    requires |file| <= from || |file| <= from + length
    ensures Tail(file, from) == Window(file, from, length)
  {
  }

  /** Bytes dumped from the buffer after a read are the file's bytes at that place: they
      carry on what is dumped already, and may close the window. */
  lemma Piece(file: seq<Byte>, before: seq<Byte>, chunk: seq<Byte>, buffer: seq<Byte>, start: nat, d: Dump,
              from: nat, length: nat)
    requires before + chunk <= file && |chunk| <= |buffer| && buffer[..|chunk|] == chunk
    requires start == Max(0, from - |before|)
    requires start + |d.bytes| <= |chunk| && d.bytes == buffer[start..start + |d.bytes|]
    requires d.position == |before| + start
    ensures Titled(d, file)
    ensures start + |d.bytes| == |chunk| ==> Tail(before + chunk, from) == Tail(before, from) + d.bytes
    ensures |before| + start + |d.bytes| == from + length ==> Window(file, from, length) == Tail(before, from) + d.bytes
  {
    hide Titled, Window, Tail;
    Front(buffer, chunk, start, |d.bytes|);
    Placed(file, before, chunk, start, d);
    if start + |d.bytes| == |chunk| {
      TailGrows(before, chunk, start, from);
    }
    if |before| + start + |d.bytes| == from + length {
      WindowCloses(file, before, chunk, start, d, from, length);
    }
  }

  lemma Front(buffer: seq<Byte>, chunk: seq<Byte>, start: nat, k: nat)
    requires |chunk| <= |buffer| && buffer[..|chunk|] == chunk && start + k <= |chunk|
    ensures buffer[start..start + k] == chunk[start..start + k]
  {
    assert buffer[..|chunk|][start..start + k] == buffer[start..start + k];
  }

  lemma Placed(file: seq<Byte>, before: seq<Byte>, chunk: seq<Byte>, start: nat, d: Dump)
    requires before + chunk <= file && start + |d.bytes| <= |chunk|
    requires d.position == |before| + start && d.bytes == chunk[start..start + |d.bytes|]
    ensures Titled(d, file)
  {
    assert file[..|before| + |chunk|] == before + chunk;
    assert (before + chunk)[d.position..d.position + |d.bytes|] == d.bytes;
  }

  lemma TailGrows(before: seq<Byte>, chunk: seq<Byte>, start: nat, from: nat)
    requires start == Max(0, from - |before|) <= |chunk|
    ensures Tail(before + chunk, from) == Tail(before, from) + chunk[start..]
  {
  }

  lemma WindowCloses(file: seq<Byte>, before: seq<Byte>, chunk: seq<Byte>, start: nat, d: Dump, from: nat, length: nat)
    requires before + chunk <= file && start + |d.bytes| <= |chunk| && start == Max(0, from - |before|)
    requires d.bytes == chunk[start..start + |d.bytes|] && |before| + start + |d.bytes| == from + length
    ensures Window(file, from, length) == Tail(before, from) + d.bytes
  {
    var all, end := before + chunk, from + length;
    assert file[..|all|] == all && end <= |all|;
    SliceOf(file, 0, |all|, from, end);
    Split(before, chunk, from, end);
    assert chunk[..end - |before|][start..] == d.bytes;
  }

  lemma Split(a: seq<Byte>, b: seq<Byte>, i: nat, j: nat)
    requires i <= j && |a| <= j <= |a| + |b|
    ensures var start := Max(0, i - |a|);
      start <= j - |a| && (a + b)[i..j] == Tail(a, i) + b[..j - |a|][start..]
  {
    var start := Max(0, i - |a|);
    var x, y := (a + b)[i..j], Tail(a, i) + b[..j - |a|][start..];
    assert |x| == |y|;
    forall k | 0 <= k < |x|
      ensures x[k] == y[k]
    {
      assert x[k] == (a + b)[i + k];
    }
    assert x == y;
  }
}
