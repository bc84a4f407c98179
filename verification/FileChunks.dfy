/** Moving parts of files over the data channel (get_file_chunk and put_file_chunk, lib/IO.py;
    read_data and write_data, lib/Connector.py). */
module FileChunks {
  import opened Text
  import opened Numbers
  import opened Connector

  type Byte = x: int | 0 <= x < 256

  const BUF_SIZE: nat := 32768

  function Min(a: int, b: int): int {
    if a < b then a else b
  }

  /** The part of a file that a chunk request asks for: at most length bytes from start on. */
  function Slice(content: seq<Byte>, start: nat, length: nat): (part: seq<Byte>)
    ensures |part| == if start >= |content| then 0 else Min(length, |content| - start)
    ensures forall i :: 0 <= i < |part| ==> part[i] == content[start + i]
  {
    if start >= |content| then [] else content[start..Min(start + length, |content|)]
  }

  function LengthReply(n: nat): string {
    "TSI_LENGTH " + Decimal(n) + "\nENDOFMESSAGE"
  }

  /** A regular file that does not change while it is read: a read is short only at its end. */
  class SourceFile {
    const content: seq<Byte>
    var pos: nat

    constructor (content: seq<Byte>)
      ensures this.content == content && pos == 0
    {
      this.content, pos := content, 0;
    }

    method ReadInto(buf: array<Byte>) returns (n: nat)
      modifies `pos, buf
      ensures n == |Slice(content, old(pos), buf.Length)| && pos == old(pos) + n
      ensures buf[..n] == Slice(content, old(pos), buf.Length)
      ensures forall i :: n <= i < buf.Length ==> buf[i] == old(buf[i])
    {
      var part := Slice(content, pos, buf.Length);
      n := |part|;
      for i := 0 to n
        invariant pos == old(pos)
        invariant forall j :: 0 <= j < i ==> buf[j] == part[j]
        invariant forall j :: i <= j < buf.Length ==> buf[j] == old(buf[j])
      {
        buf[i] := part[i];
      }
      pos := pos + n;
    }
  }

  /** Something bytes are written to, possibly in part: each write takes at least one byte. */
  class Sink {
    var content: seq<Byte>

    constructor ()
      ensures content == []
    {
      content := [];
    }

    method Truncate()
      modifies this
      ensures content == []
    {
      content := [];
    }

    method Write(data: seq<Byte>) returns (n: nat)
      modifies this
      ensures n <= |data| && (data != [] ==> n > 0)
      ensures content == old(content) + data[..n]
    {
      n := |data|;
      var k: int := *;
      if 0 < k < |data| {
        n := k;
      }
      content := content + data[..n];
    }
  }

  /** The receiving side of the data channel: a read waits for at least one byte unless the peer
      has closed. */
  class Source {
    var pending: seq<Byte>

    constructor (pending: seq<Byte>)
      ensures this.pending == pending
    {
      this.pending := pending;
    }

    /** read_data */
    method ReadData(maxlen: nat) returns (data: seq<Byte>)
      requires maxlen > 0
      modifies this
      ensures old(pending) == data + pending && |data| <= Min(maxlen, BUF_SIZE)
      ensures old(pending) != [] ==> data != []
    {
      var limit := Min(maxlen, BUF_SIZE);
      var n := Min(limit, |pending|);
      var k: int := *;
      if 0 < k < n {
        n := k;
      }
      data, pending := pending[..n], pending[n..];
    }
  }

  datatype Outcome = Completed | Failed

  /** buf[offset:total]: what lies beyond the buffer's end is silently left out. */
  function Between(buf: seq<Byte>, offset: nat, total: nat): (part: seq<Byte>)
    ensures |part| == if offset < Min(total, |buf|) then Min(total, |buf|) - offset else 0
  {
    if offset < Min(total, |buf|) then buf[offset..Min(total, |buf|)] else []
  }

  /** One round of writing: something is written as long as there is something before the buffer's end. */
  method WriteNext(buf: seq<Byte>, offset: nat, total: nat, sink: Sink) returns (written: nat)
    requires offset <= Min(total, |buf|)
    modifies sink
    ensures offset + written <= Min(total, |buf|) && (offset < Min(total, |buf|) ==> written > 0)
    ensures sink.content == old(sink.content) + buf[offset..offset + written]
  {
    written := sink.Write(Between(buf, offset, total));
    assert Between(buf, offset, total)[..written] == buf[offset..offset + written];
  }

  /** Writes the first total bytes of the buffer, however many partial writes it takes. The premise is that
      the buffer holds so many. */
  method WriteOut(buf: seq<Byte>, total: nat, sink: Sink)
    requires total <= |buf|
    modifies sink
    ensures sink.content == old(sink.content) + buf[..total]
  {
    var writeOffset := 0;
    var mustWrite := total;
    while mustWrite > 0
      invariant 0 <= writeOffset && 0 <= mustWrite && writeOffset + mustWrite == total
      invariant sink.content == old(sink.content) + buf[..writeOffset]
      decreases mustWrite
    {
      var written := WriteNext(buf, writeOffset, total, sink);
      assert buf[..writeOffset] + buf[writeOffset..writeOffset + written] == buf[..writeOffset + written];
      writeOffset := writeOffset + written;
      mustWrite := mustWrite - written;
    }
  }

  /** The first k rounds of that loop for any total. They come to an end exactly if the buffer holds so many
      bytes; otherwise only the buffer is written, and what is missing stays to be written for ever. */
  method WriteRounds(buf: seq<Byte>, total: nat, sink: Sink, k: nat) returns (mustWrite: nat)
    modifies sink
    ensures mustWrite <= total && total - mustWrite <= |buf|
    ensures sink.content == old(sink.content) + buf[..total - mustWrite]
    ensures total > |buf| ==> mustWrite > 0
    ensures total <= |buf| && k >= total ==> mustWrite == 0
  {
    mustWrite := total;
    for i := 0 to k
      invariant mustWrite <= total && total - mustWrite <= |buf|
      invariant sink.content == old(sink.content) + buf[..total - mustWrite]
      invariant mustWrite == 0 || total - mustWrite >= Min(i, |buf|)
    {
      if mustWrite > 0 {
        var writeOffset := total - mustWrite;
        var written := WriteNext(buf, writeOffset, total, sink);
        assert buf[..writeOffset] + buf[writeOffset..writeOffset + written] == buf[..writeOffset + written];
        mustWrite := mustWrite - written;
      }
    }
  }

  /** Announces the number of bytes on the control channel, then sends exactly the requested slice.
      A negative start or length raises before anything is sent. */
  method GetFileChunk(file: SourceFile, start: int, length: int, conn: Connector, out: Sink) returns (r: Outcome)
    modifies file`pos, out, conn`buffer, conn.control`output
    ensures start < 0 || length < 0 ==>
              r == Failed && out.content == old(out.content) && conn.control.output == old(conn.control.output)
    ensures start >= 0 && length >= 0 && r == Completed ==>
              var part := Slice(file.content, start, length);
              && out.content == old(out.content) + part
              && conn.control.output == old(conn.Written()) + OkText(Some(LengthReply(|part|))) + NL
    ensures r == Failed ==> out.content == old(out.content)
  {
    if start < 0 || length < 0 {
      return Failed;
    }
    file.pos := start;
    var buf := new Byte[length](_ => 0);
    var total := 0;
    var remaining := length;
    ghost var part := Slice(file.content, start, length);
    while remaining > 0
      invariant total + remaining == length && buf.Length == length
      invariant (total == 0 && file.pos == start)
                  || (total == |part| && file.pos == start + total && buf[..total] == part)
      decreases remaining
      modifies file`pos, buf
    {
      var n := file.ReadInto(buf);
      if n == 0 {
        break;
      }
      total := total + n;
      remaining := remaining - n;
    }
    assert buf[..total] == part && buf[..][..total] == buf[..total];
    var ok := conn.Ok(Some(LengthReply(total)));
    if !ok {
      return Failed;
    }
    WriteOut(buf[..], total, out);
    r := Completed;
  }

  /** One round of storing: reads some of the remaining bytes and writes them all. What is missing
      stays missing, and on an exhausted channel a round changes nothing, so that with fewer bytes
      than announced the loop would not end. */
  method StoreNext(file: Sink, remaining: nat, source: Source) returns (left: nat)
    requires remaining > 0
    modifies file, source
    ensures left <= remaining && remaining - left <= |old(source.pending)|
    ensures var n := remaining - left;
            && file.content == old(file.content) + old(source.pending)[..n]
            && source.pending == old(source.pending)[n..]
    ensures old(source.pending) != [] <==> left < remaining
    ensures old(source.pending) == [] ==> left == remaining && file.content == old(file.content) && source.pending == []
    ensures left - |source.pending| == remaining - |old(source.pending)|
  {
    var buf := source.ReadData(remaining);
    left := remaining - |buf|;
    assert old(source.pending)[..|buf|] == buf[..|buf|] == buf;
    WriteOut(buf, |buf|, file);
  }

  /** The first k rounds of storing, for any announced length: they come to an end exactly if the peer sends
      the announced bytes. */
  method StoreRounds(file: Sink, length: nat, source: Source, k: nat) returns (remaining: nat)
    modifies file, source
    ensures remaining <= length && length - remaining <= |old(source.pending)|
    ensures var n := length - remaining;
            && file.content == old(file.content) + old(source.pending)[..n]
            && source.pending == old(source.pending)[n..]
    ensures length > |old(source.pending)| ==> remaining > 0
    ensures length <= |old(source.pending)| && k >= length ==> remaining == 0
  {
    ghost var base, all := file.content, source.pending;
    remaining := length;
    for i := 0 to k
      invariant remaining <= length && length - remaining <= |all|
      invariant file.content == base + all[..length - remaining] && source.pending == all[length - remaining..]
      invariant remaining == 0 || length - remaining >= Min(i, |all|)
    {
      if remaining > 0 {
        ghost var done, before := length - remaining, remaining;
        remaining := StoreNext(file, remaining, source);
        ghost var n := before - remaining;
        assert all[..done] + all[done..][..n] == all[..done + n] && all[done..][n..] == all[done + n..];
      }
    }
  }

  /** Stores exactly length bytes of the channel: appended for action 3, replacing the file's content
      otherwise. The premise is that the peer sends them. */
  method PutFileChunk(file: Sink, action: string, length: int, conn: Connector, source: Source) returns (r: Outcome)
    requires length <= |source.pending|
    modifies file, source, conn`buffer, conn.control`output
    ensures var base, n := if action == "3" then old(file.content) else [], if length > 0 then length else 0;
            if r == Completed
            then file.content == base + old(source.pending)[..n] && source.pending == old(source.pending)[n..]
            else file.content == base && source.pending == old(source.pending)
    ensures r == Completed ==> conn.buffer == "" && conn.control.output == old(conn.Written()) + OkText(Some(END)) + NL
  {
    if action != "3" {
      file.Truncate();
    }
    ghost var base := file.content;
    ghost var all := source.pending;
    var ok := conn.Ok(Some(END));
    if !ok {
      return Failed;
    }
    var remaining := length;
    ghost var done: nat := 0;
    assert base + all[..0] == base && all[0..] == all;
    while remaining > 0
      invariant if length > 0 then done + remaining == length && remaining >= 0 else done == 0 && remaining == length
      invariant done <= |all| && remaining <= |all| - done
      invariant source.pending == all[done..] && file.content == base + all[..done]
      decreases remaining
      modifies file, source
    {
      ghost var before := remaining;
      remaining := StoreNext(file, remaining, source);
      ghost var n := before - remaining;
      assert all[..done] + all[done..][..n] == all[..done + n] && all[done..][n..] == all[done + n..];
      done := done + n;
    }
    r := Completed;
  }

  /** What storing a chunk leaves in the file. */
  function Stored(old_: seq<Byte>, data: seq<Byte>, append: bool): seq<Byte> {
    if append then old_ + data else data
  }

  /** The peer's transfer: fetch chunk after chunk, store the first with overwrite and the rest with
      append, and stop at a chunk that comes back short. */
  function Transfer(content: seq<Byte>, chunk: nat, offset: nat, dest: seq<Byte>): seq<Byte>
    requires chunk > 0
    decreases |content| - offset
  {
    var data := Slice(content, offset, chunk);
    var dest' := Stored(dest, data, offset > 0);
    if |data| < chunk then dest' else Transfer(content, chunk, offset + chunk, dest')
  }

  /** Copying a file in chunks of any positive size reproduces it, whatever the target held before. */
  lemma TransferCopies(content: seq<Byte>, chunk: nat, dest: seq<Byte>)
    requires chunk > 0
    ensures Transfer(content, chunk, 0, dest) == content
  {
    TransferFrom(content, chunk, 0, dest);
  }

  lemma {:induction false} TransferFrom(content: seq<Byte>, chunk: nat, offset: nat, dest: seq<Byte>)
    requires chunk > 0 && offset <= |content|
    requires offset > 0 ==> dest == content[..offset]
    ensures Transfer(content, chunk, offset, dest) == content
    decreases |content| - offset
  {
    var data := Slice(content, offset, chunk);
    var dest' := Stored(dest, data, offset > 0);
    assert dest' == content[..offset + |data|];
    if |data| == chunk {
      TransferFrom(content, chunk, offset + chunk, dest');
    }
  }

  /** One chunk of the peer's transfer: fetched, then stored with action 1 if it is the first and with
      action 3 otherwise. */
  method CopyChunk(src: SourceFile, offset: nat, chunk: nat, dst: Sink, conn: Connector) returns (ok: bool, size: nat)
    modifies src`pos, dst, conn`buffer, conn.control`output
    ensures ok ==>
              var data := Slice(src.content, offset, chunk);
              size == |data| && dst.content == Stored(old(dst.content), data, offset > 0)
  {
    hide OkText, LengthReply, NL, END;
    var received := new Sink();
    var r := GetFileChunk(src, offset, chunk, conn, received);
    if r == Failed {
      return false, 0;
    }
    var data := received.content;
    assert data == Slice(src.content, offset, chunk) && data[..|data|] == data;
    var channel := new Source(data);
    r := PutFileChunk(dst, if offset > 0 then "3" else "1", |data|, conn, channel);
    return r == Completed, |data|;
  }

  /** The whole transfer, whatever partial reads and writes occur, reproduces the file. */
  method CopyInChunks(src: SourceFile, chunk: nat, dst: Sink, conn: Connector) returns (ok: bool)
    requires chunk > 0
    modifies src`pos, dst, conn`buffer, conn.control`output
    ensures ok ==> dst.content == src.content
  {
    hide Slice;
    var offset := 0;
    ghost var target := dst.content;
    var short := false;
    while !short
      invariant 0 <= offset && (!short ==> offset <= |src.content|)
      invariant Transfer(src.content, chunk, 0, target)
                == if short then dst.content else Transfer(src.content, chunk, offset, dst.content)
      decreases !short, |src.content| - offset
    {
      var size;
      ok, size := CopyChunk(src, offset, chunk, dst, conn);
      if !ok {
        return;
      }
      short := size < chunk;
      offset := offset + chunk;
    }
    TransferCopies(src.content, chunk, target);
    ok := true;
  }

  type Positive = x: int | x > 0 witness 1

  function Sum(sizes: seq<Positive>): (n: nat)
    ensures sizes != [] ==> sizes[|sizes| - 1] <= n
    ensures |sizes| > 1 ==> sizes[|sizes| - 1] < n
  {
    if sizes == [] then 0 else sizes[0] + Sum(sizes[1..])
  }

  /** Reads of these sizes fit into the buffer one by one, and there is so much to read. */
  predicate CanRead(length: nat, data: seq<Byte>, sizes: seq<Positive>) {
    (forall i :: 0 <= i < |sizes| ==> sizes[i] <= length) && Sum(sizes) <= |data|
  }

  /** The buffer after reads of the given sizes, each stored from the buffer's start. */
  function Fill(buf: seq<Byte>, data: seq<Byte>, sizes: seq<Positive>): (filled: seq<Byte>)
    requires CanRead(|buf|, data, sizes)
    ensures |filled| == |buf|
    decreases sizes
  {
    if sizes == [] then buf
    else Fill(data[..sizes[0]] + buf[sizes[0]..], data[sizes[0]..], sizes[1..])
  }

  lemma {:induction false} SumSnoc(sizes: seq<Positive>, n: Positive)
    ensures Sum(sizes + [n]) == Sum(sizes) + n
  {
    if sizes == [] {
      assert sizes + [n] == [n] && [n][1..] == [];
    } else {
      assert (sizes + [n])[1..] == sizes[1..] + [n];
      SumSnoc(sizes[1..], n);
    }
  }

  lemma CanReadSnoc(length: nat, data: seq<Byte>, sizes: seq<Positive>, n: Positive)
    ensures CanRead(length, data, sizes + [n]) <==>
              CanRead(length, data, sizes) && n <= length && Sum(sizes) + n <= |data|
  {
    SumSnoc(sizes, n);
    assert forall i :: 0 <= i < |sizes| ==> sizes[i] == (sizes + [n])[i];
    assert (sizes + [n])[|sizes|] == n;
  }

  lemma CanReadRest(length: nat, data: seq<Byte>, sizes: seq<Positive>)
    requires CanRead(length, data, sizes) && sizes != []
    ensures sizes[0] <= length && sizes[0] <= |data| && CanRead(length, data[sizes[0]..], sizes[1..])
    ensures Sum(sizes) == sizes[0] + Sum(sizes[1..])
  {
  }

  lemma FillFirst(buf: seq<Byte>, data: seq<Byte>, n: Positive)
    requires n <= |buf| && n <= |data|
    ensures CanRead(|buf|, data, [n]) && Fill(buf, data, [n]) == data[..n] + buf[n..]
  {
    assert [n][1..] == [];
    assert Sum([n]) == n + Sum([]);
    assert Fill(data[..n] + buf[n..], data[n..], []) == data[..n] + buf[n..];
  }

  lemma {:induction false} FillSnoc(buf: seq<Byte>, data: seq<Byte>, sizes: seq<Positive>, n: Positive)
    requires CanRead(|buf|, data, sizes) && n <= |buf| && Sum(sizes) + n <= |data|
    ensures CanRead(|buf|, data, sizes + [n])
    ensures Fill(buf, data, sizes + [n])
            == data[Sum(sizes)..Sum(sizes) + n] + Fill(buf, data, sizes)[n..]
    decreases sizes
  {
    CanReadSnoc(|buf|, data, sizes, n);
    if sizes == [] {
      assert sizes + [n] == [n];
      FillFirst(buf, data, n);
    } else {
      CanReadRest(|buf|, data, sizes);
      var buf', data', rest := data[..sizes[0]] + buf[sizes[0]..], data[sizes[0]..], sizes[1..];
      assert (sizes + [n])[0] == sizes[0] && (sizes + [n])[1..] == rest + [n];
      FillSnoc(buf', data', rest, n);
      assert Fill(buf, data, sizes) == Fill(buf', data', rest);
      assert Fill(buf, data, sizes + [n]) == Fill(buf', data', rest + [n]);
      hide Fill, CanRead, Sum;
      assert data'[Sum(rest)..Sum(rest) + n] == data[Sum(sizes)..Sum(sizes) + n];
    }
  }

  /** A file whose reads may be short before its end, such as a FIFO. */
  class Pipe {
    var pending: seq<Byte>

    constructor (pending: seq<Byte>)
      ensures this.pending == pending
    {
      this.pending := pending;
    }

    method ReadInto(buf: array<Byte>) returns (n: nat)
      modifies this, buf
      ensures n <= Min(buf.Length, |old(pending)|)
      ensures n == 0 <==> buf.Length == 0 || old(pending) == []
      ensures pending == old(pending)[n..]
      ensures buf[..] == old(pending)[..n] + old(buf[..])[n..]
    {
      var limit := Min(buf.Length, |pending|);
      n := limit;
      var k: int := *;
      if 0 < k < limit {
        n := k;
      }
      for i := 0 to n
        invariant pending == old(pending)
        invariant forall j :: 0 <= j < i ==> buf[j] == pending[j]
        invariant forall j :: i <= j < buf.Length ==> buf[j] == old(buf[j])
      {
        buf[i] := pending[i];
      }
      pending := pending[n..];
    }
  }

  lemma NothingRead(buf: seq<Byte>, data: seq<Byte>)
    ensures CanRead(|buf|, data, []) && Sum([]) == 0 && Fill(buf, data, []) == buf
  {
  }

  /** The reading loop of get_file_chunk on such a file, with the sizes of its reads. */
  method ReadChunk(file: Pipe, length: nat) returns (buf: array<Byte>, total: nat, ghost sizes: seq<Positive>)
    modifies file
    ensures fresh(buf) && buf.Length == length
    ensures CanRead(length, old(file.pending), sizes) && total == Sum(sizes)
    ensures file.pending == old(file.pending)[total..] && (total < length ==> file.pending == [])
    ensures buf[..] == Fill(seq(length, _ => 0), old(file.pending), sizes)
  {
    hide Fill, Sum;
    buf := new Byte[length](_ => 0);
    total := 0;
    var remaining: int := length;
    ghost var data, zeros := file.pending, seq(length, _ => 0 as Byte);
    sizes := [];
    assert buf[..] == zeros;
    NothingRead(zeros, data);
    while remaining > 0
      invariant fresh(buf) && buf.Length == length && remaining == length - total
      invariant CanRead(length, data, sizes) && total == Sum(sizes) && file.pending == data[total..]
      invariant buf[..] == Fill(zeros, data, sizes)
      decreases remaining
    {
      var n := file.ReadInto(buf);
      if n == 0 {
        break;
      }
      CanReadSnoc(length, data, sizes, n);
      SumSnoc(sizes, n);
      FillSnoc(zeros, data, sizes, n);
      assert data[total..][..n] == data[total..total + n] && data[total..][n..] == data[total + n..];
      sizes := sizes + [n];
      total := total + n;
      remaining := remaining - n;
    }
  }

  /** What is then sent is what was read: the buffer holds so many bytes, and they are the right ones. */
  ghost predicate Faithful(buf: seq<Byte>, data: seq<Byte>, sizes: seq<Positive>)
    requires CanRead(|buf|, data, sizes)
  {
    Sum(sizes) <= |buf| && Fill(buf, data, sizes)[..Sum(sizes)] == data[..Sum(sizes)]
  }

  /** The buffer starts with the last read's first byte. */
  lemma {:induction false} FillStart(buf: seq<Byte>, data: seq<Byte>, sizes: seq<Positive>)
    requires CanRead(|buf|, data, sizes) && sizes != []
    ensures |buf| > 0 && Fill(buf, data, sizes)[0] == data[Sum(sizes) - sizes[|sizes| - 1]]
    decreases sizes
  {
    var buf', data', rest := data[..sizes[0]] + buf[sizes[0]..], data[sizes[0]..], sizes[1..];
    if rest == [] {
      assert Fill(buf, data, sizes) == buf';
    } else {
      FillStart(buf', data', rest);
      assert data'[Sum(rest) - rest[|rest| - 1]] == data[sizes[0] + Sum(rest) - rest[|rest| - 1]];
    }
  }

  lemma SingleReadIsFaithful(buf: seq<Byte>, data: seq<Byte>, sizes: seq<Positive>)
    requires CanRead(|buf|, data, sizes) && |sizes| <= 1
    ensures Faithful(buf, data, sizes)
  {
    if |sizes| == 1 {
      var filled := data[..sizes[0]] + buf[sizes[0]..];
      assert Sum(sizes[1..]) == 0;
      assert Fill(filled, data[sizes[0]..], sizes[1..]) == filled;
      assert filled[..sizes[0]] == data[..sizes[0]];
    }
  }

  lemma RepeatedReadsAreNot(buf: seq<Byte>, data: seq<Byte>, sizes: seq<Positive>)
    requires CanRead(|buf|, data, sizes) && |sizes| > 1
    requires data[0] == 0 && forall i :: 0 < i < |data| ==> data[i] == 1
    ensures !Faithful(buf, data, sizes)
  {
    hide Fill;
    FillStart(buf, data, sizes);
    var n := Sum(sizes);
    if n <= |buf| {
      assert Fill(buf, data, sizes)[..n][0] == 1;
      assert data[..n][0] == 0;
    }
  }

  /** The premise on short reads is exact: since every read starts again at the buffer's first byte and may
      fill all of it, a chunk is sent faithfully for all file contents exactly when at most one read
      returned data. */
  lemma ShortReadsCorrupt(buf: seq<Byte>, sizes: seq<Positive>)
    requires forall i :: 0 <= i < |sizes| ==> sizes[i] <= |buf|
    ensures (forall data: seq<Byte> :: |data| == Sum(sizes) ==> Faithful(buf, data, sizes)) <==> |sizes| <= 1
  {
    hide Fill, Faithful;
    if |sizes| > 1 {
      var data: seq<Byte> := seq(Sum(sizes), i => if i == 0 then 0 else 1);
      RepeatedReadsAreNot(buf, data, sizes);
    } else {
      forall data: seq<Byte> | |data| == Sum(sizes) ensures Faithful(buf, data, sizes) {
        SingleReadIsFaithful(buf, data, sizes);
      }
    }
  }

  /** Three bytes read as two and two, of a chunk of three: four are announced, and the buffer holds three. */
  lemma ReadsCanExceedBuffer(buf: seq<Byte>, data: seq<Byte>)
    requires |buf| == 3 && |data| == 4
    ensures CanRead(3, data, [2, 2]) && Sum([2]) < 3 && Sum([2, 2]) == 4 && !Faithful(buf, data, [2, 2])
  {
    assert [2, 2][1..] == [2] && [2][1..] == [];
  }
}
