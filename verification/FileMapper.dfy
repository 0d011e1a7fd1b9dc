/** The set of file ranges already loaded: an interval set that joins what overlaps or touches. */
module IntervalSet {
  import opened Wrappers

  /** A range of offsets, open on the right. */
  datatype Chunk = Chunk(offset: nat, end: nat) {
    predicate Contains(other: Chunk) {
      offset <= other.offset && end >= other.end
    }
  }

  ghost predicate Covers(m: seq<Chunk>, x: int) {
    exists i :: 0 <= i < |m| && m[i].offset <= x < m[i].end
  }

  ghost predicate CoversAll(m: seq<Chunk>, lo: int, hi: int) {
    forall x :: lo <= x < hi ==> Covers(m, x)
  }

  /** Sorted, and joined: between two neighbours there is a gap. */
  ghost predicate Normal(m: seq<Chunk>) {
    && (forall i :: 0 <= i < |m| ==> m[i].offset < m[i].end)
    && (forall i, j :: 0 <= i < j < |m| ==> m[i].end < m[j].offset)
  }

  /** The first interval that overlaps the chunk. */
  function Find(m: seq<Chunk>, ch: Chunk): (r: Option<nat>)
    ensures r.Some? ==> r.value < |m|
  {
    if m == [] then None
    else if m[0].end <= ch.offset then
      match Find(m[1..], ch)
      case None => None
      case Some(i) => Some(i + 1)
    else if ch.end <= m[0].offset then None
    else Some(0)
  }

  /** Adding a chunk joins it with every interval that it overlaps or touches. */
  function Add(m: seq<Chunk>, ch: Chunk): seq<Chunk>
    decreases |m|
  {
    if m == [] then [ch]
    else if m[0].end < ch.offset then [m[0]] + Add(m[1..], ch)
    else if ch.end < m[0].offset then [ch] + m
    else Add(m[1..], Hull(m[0], ch))
  }

  function Hull(a: Chunk, b: Chunk): Chunk {
    Chunk(if a.offset < b.offset then a.offset else b.offset, if a.end > b.end then a.end else b.end)
  }

  ghost predicate AllAfter(m: seq<Chunk>, lo: nat) {
    forall i :: 0 <= i < |m| ==> lo < m[i].offset
  }

  lemma {:induction false} AddStaysAfter(m: seq<Chunk>, ch: Chunk, lo: nat)
    requires AllAfter(m, lo) && lo < ch.offset
    ensures AllAfter(Add(m, ch), lo)
    decreases |m|
  {
    if m != [] {
      if m[0].end < ch.offset {
        AddStaysAfter(m[1..], ch, lo);
      } else if m[0].offset <= ch.end {
        AddStaysAfter(m[1..], Hull(m[0], ch), lo);
      }
    }
  }

  lemma {:induction false} AddKeepsNormal(m: seq<Chunk>, ch: Chunk)
    requires Normal(m) && ch.offset < ch.end
    ensures Normal(Add(m, ch))
    decreases |m|
  {
    if m != [] {
      if m[0].end < ch.offset {
        AddKeepsNormal(m[1..], ch);
        AddStaysAfter(m[1..], ch, m[0].end);
      } else if m[0].offset <= ch.end {
        AddKeepsNormal(m[1..], Hull(m[0], ch));
      }
    }
  }

  lemma {:induction false} AddCoversUnion(m: seq<Chunk>, ch: Chunk, x: int)
    requires Normal(m) && ch.offset < ch.end
    ensures Covers(Add(m, ch), x) <==> Covers(m, x) || ch.offset <= x < ch.end
    decreases |m|
  {
    if m == [] {
      assert Add(m, ch)[0] == ch;
    } else {
      CoversSplit(m, x);
      if m[0].end < ch.offset {
        AddCoversUnion(m[1..], ch, x);
        CoversSplit(Add(m, ch), x);
        assert Add(m, ch)[1..] == Add(m[1..], ch);
      } else if ch.end < m[0].offset {
        CoversSplit(Add(m, ch), x);
        assert Add(m, ch)[1..] == m;
      } else {
        AddCoversUnion(m[1..], Hull(m[0], ch), x);
      }
    }
  }

  lemma CoversSplit(m: seq<Chunk>, x: int)
    requires m != []
    ensures Covers(m, x) <==> m[0].offset <= x < m[0].end || Covers(m[1..], x)
  {
    if Covers(m[1..], x) {
      var i :| 0 <= i < |m[1..]| && m[1..][i].offset <= x < m[1..][i].end;
      assert m[i + 1] == m[1..][i];
    }
    if Covers(m, x) {
      var i :| 0 <= i < |m| && m[i].offset <= x < m[i].end;
      if i > 0 {
        assert m[1..][i - 1] == m[i];
      }
    }
  }

  lemma {:induction false} AddStaysWithin(m: seq<Chunk>, ch: Chunk, n: nat)
    requires (forall i :: 0 <= i < |m| ==> m[i].end <= n) && ch.end <= n
    ensures forall i :: 0 <= i < |Add(m, ch)| ==> Add(m, ch)[i].end <= n
    decreases |m|
  {
    if m != [] {
      if m[0].end < ch.offset {
        AddStaysWithin(m[1..], ch, n);
      } else if m[0].offset <= ch.end {
        AddStaysWithin(m[1..], Hull(m[0], ch), n);
      }
    }
  }

  /** What adding a chunk does, all together. */
  lemma AddJoins(m: seq<Chunk>, ch: Chunk, n: nat)
    requires Normal(m) && ch.offset < ch.end <= n && forall i :: 0 <= i < |m| ==> m[i].end <= n
    ensures Normal(Add(m, ch)) && forall i :: 0 <= i < |Add(m, ch)| ==> Add(m, ch)[i].end <= n
    ensures forall x :: Covers(Add(m, ch), x) <==> Covers(m, x) || ch.offset <= x < ch.end
  {
    AddKeepsNormal(m, ch);
    AddStaysWithin(m, ch, n);
    forall x
      ensures Covers(Add(m, ch), x) <==> Covers(m, x) || ch.offset <= x < ch.end
    {
      AddCoversUnion(m, ch, x);
    }
  }

  /** In normal form one look at the first overlapping interval decides whether a non-empty chunk is
      within the union. */
  lemma {:induction false} FoundIffWithinUnion(m: seq<Chunk>, ch: Chunk)
    requires Normal(m) && ch.offset < ch.end
    ensures Find(m, ch).Some? && m[Find(m, ch).value].Contains(ch) <==> CoversAll(m, ch.offset, ch.end)
    decreases |m|
  {
    if m == [] {
      assert !Covers(m, ch.offset);
    } else {
      forall x | ch.offset <= x < ch.end
        ensures Covers(m, x) <==> m[0].offset <= x < m[0].end || Covers(m[1..], x)
      {
        CoversSplit(m, x);
      }
      if m[0].end <= ch.offset {
        FoundIffWithinUnion(m[1..], ch);
      } else {
        // the offset is covered by no later interval, and neither is the end of m[0]
        assert !Covers(m[1..], m[0].end);
        if ch.offset < m[0].offset {
          assert !Covers(m[1..], ch.offset);
        }
      }
    }
  }

  /** An empty chunk at or after every end is found nowhere. */
  lemma {:induction false} EmptyAtEndIsNotFound(m: seq<Chunk>, at: nat)
    requires forall i :: 0 <= i < |m| ==> m[i].end <= at
    ensures Find(m, Chunk(at, at)).None?
  {
    if m != [] {
      EmptyAtEndIsNotFound(m[1..], at);
    }
  }
}

/** The reader behind the mapper: smb_client::read over a remote file. */
module SmbReader {
  newtype byte = x: int | 0 <= x < 256

  class SmbClient {
    // the remote file, which does not change while it is open
    const content: seq<byte>
    // whether the remote side never reports an error
    const reliable: bool
    var cursor: nat
    // the calls of Read so far: offset and size
    ghost var requested: seq<(nat, nat)>

    constructor (content: seq<byte>, reliable: bool)
      ensures this.content == content && this.reliable == reliable && requested == []
    {
      this.content, this.reliable, cursor, requested := content, reliable, 0, [];
    }

    /** How many bytes of the file are left at an offset. */
    function Left(offset: nat): nat {
      if offset < |content| then |content| - offset else 0
    }

    method Seek(offset: nat) returns (ok: bool)
      modifies this`cursor
      ensures ok ==> cursor == offset
      ensures reliable ==> ok
    {
      if !reliable {
        if * {
          return false;
        }
      }
      cursor := offset;
      ok := true;
    }

    /** smbc_read: an error, or any number of bytes up to the number asked for, none only at the end
        of the file. */
    method ReadSome(dest: array<byte>, at: nat, n: nat) returns (r: int)
      requires at + n <= dest.Length
      modifies this`cursor, dest
      ensures r == -1 || 0 <= r <= n
      ensures reliable ==> r != -1
      ensures r == 0 ==> n == 0 || Left(old(cursor)) == 0
      ensures r >= 0 ==> r <= Left(old(cursor)) && cursor == old(cursor) + r
      ensures r == -1 ==> cursor == old(cursor)
      ensures forall x :: at <= x < at + r ==> dest[x] == content[old(cursor) + (x - at)]
      ensures forall x :: 0 <= x < dest.Length && !(at <= x < at + r) ==> dest[x] == old(dest[x])
    {
      if !reliable {
        if * {
          return -1;
        }
      }
      var left := Left(cursor);
      var most := if n < left then n else left;
      var k: nat :| k <= most && (k == 0 ==> most == 0);
      forall x | at <= x < at + k {
        dest[x] := content[cursor + (x - at)];
      }
      cursor := cursor + k;
      r := k;
    }

    /** Reads on until size bytes are there or the file ends.  Whatever is written, complete or not,
        are the file's own bytes at their places. */
    method Read(offset: nat, size: nat, dest: array<byte>, at: nat) returns (r: int)
      requires at + size <= dest.Length
      modifies this`cursor, this`requested, dest
      ensures requested == old(requested) + [(offset, size)]
      ensures r == -1 || r == if size < Left(offset) then size else Left(offset)
      ensures reliable ==> r != -1
      ensures forall x :: at <= x < at + r ==> dest[x] == content[offset + (x - at)]
      ensures forall x :: at <= x < at + size ==>
                dest[x] == old(dest[x]) || (x - at < Left(offset) && dest[x] == content[offset + (x - at)])
      ensures forall x :: 0 <= x < dest.Length && !(at <= x < at + size) ==> dest[x] == old(dest[x])
    {
      requested := requested + [(offset, size)];
      var ok := Seek(offset);
      if !ok {
        return -1;
      }
      var curpos, bytesread := 0, 1;
      while curpos < size && bytesread > 0
        invariant 0 <= curpos <= size && curpos <= Left(offset) && cursor == offset + curpos
        invariant bytesread >= 0 && (bytesread == 0 ==> curpos == size || curpos == Left(offset))
        invariant requested == old(requested) + [(offset, size)]
        invariant forall x :: at <= x < at + curpos ==> dest[x] == content[offset + (x - at)]
        invariant forall x :: 0 <= x < dest.Length && !(at <= x < at + curpos) ==> dest[x] == old(dest[x])
        decreases size - curpos, bytesread
      {
        bytesread := ReadSome(dest, at + curpos, size - curpos);
        if bytesread < 0 {
          return -1;
        }
        curpos := curpos + bytesread;
      }
      return curpos;
    }
  }
}

/** The lazy file cache. */
module FileMapping {
  import opened IntervalSet
  import opened SmbReader

  const MINIMUM_READ := 1024 * 16
  const SIZE_LIMIT := 0x1_0000_0000_0000_0000
  // file sizes are signed
  const FILE_LIMIT := 0x8000_0000_0000_0000

  class FileMapper {
    const reader: SmbClient
    const data: array<byte>
    var chunks: seq<Chunk>

    /** Cache coherence: the loaded ranges are in normal form and inside the file, and every byte in
        them is the file's byte.  No read so far has left the file. */
    ghost predicate Valid()
      reads this, data, reader
    {
      && data.Length == |reader.content| < FILE_LIMIT
      && Normal(chunks)
      && (forall i :: 0 <= i < |chunks| ==> chunks[i].end <= data.Length)
      && (forall x :: 0 <= x < data.Length && Covers(chunks, x) ==> data[x] == reader.content[x])
      && (forall i :: 0 <= i < |reader.requested| ==> reader.requested[i].0 + reader.requested[i].1 <= data.Length)
    }

    constructor (reader: SmbClient)
      requires |reader.content| < FILE_LIMIT && reader.requested == []
      ensures Valid() && fresh(data) && this.reader == reader && chunks == []
      ensures forall x :: 0 <= x < data.Length ==> data[x] == 0
    {
      this.reader, chunks := reader, [];
      data := new byte[|reader.content|](_ => 0);
    }

    predicate InBound(offset: nat, size: nat) {
      size + offset <= data.Length
    }

    /** minimum_read_size: at least 16 KiB, but not past the end. */
    function MinimumReadSize(offset: nat, size: nat): nat
      requires offset <= data.Length
    {
      var want := if MINIMUM_READ > size then MINIMUM_READ else size;
      if data.Length - offset < want then data.Length - offset else want
    }

    /** From the offset to the end is read what was asked for, but at least 16 KiB, as far as the file goes. */
    predicate IsRoundedUp(offset: nat, size: nat, end: nat) {
      var want := if size < 0x4000 then offset + 0x4000 else offset + size;
      end == if want < data.Length then want else data.Length
    }

    /** The range that a request is rounded up to. */
    function Rounded(offset: nat, size: nat): Chunk
      requires offset <= data.Length
    {
      Chunk(offset, offset + MinimumReadSize(offset, size))
    }

    /** After success the requested range is loaded.  What was loaded stays loaded.  A request in
        bounds whose rounded range is not empty reads from the file exactly when the rounded range is
        not yet loaded.  A request for nothing at the very end of the file reads nothing and fails. */
    method MapChunk(offset: nat, size: nat) returns (ok: bool)
      requires Valid() && offset + size < SIZE_LIMIT
      modifies this`chunks, data, reader`cursor, reader`requested
      ensures Valid()
      ensures ok ==> InBound(offset, size) && CoversAll(chunks, offset, offset + size)
      ensures forall x :: Covers(old(chunks), x) ==> Covers(chunks, x)
      ensures reader.reliable ==> ok == (InBound(offset, size) && offset < data.Length)
      ensures !InBound(offset, size) ==> !ok && reader.requested == old(reader.requested) && chunks == old(chunks)
      ensures InBound(offset, size) && offset == data.Length ==>
                !ok && reader.requested == old(reader.requested) + [(offset, 0)] && chunks == old(chunks)
      ensures InBound(offset, size) && offset < data.Length ==>
                var ch := Rounded(offset, size);
                if CoversAll(old(chunks), ch.offset, ch.end) then
                  ok && reader.requested == old(reader.requested) && chunks == old(chunks)
                else
                  && reader.requested == old(reader.requested) + [(offset, ch.end - ch.offset)]
                  && IsRoundedUp(offset, size, ch.end)
                  && (!ok ==> chunks == old(chunks))
                  && (ok ==> forall x :: Covers(chunks, x) <==> Covers(old(chunks), x) || ch.offset <= x < ch.end)
    {
      if InBound(offset, size) {
        var newChunk := Rounded(offset, size);
        var found := Find(chunks, newChunk);
        if offset < data.Length {
          FoundIffWithinUnion(chunks, newChunk);
        } else {
          EmptyAtEndIsNotFound(chunks, offset);
        }
        if found.None? || !chunks[found.value].Contains(newChunk) {
          ok := ReadAndAdd(newChunk);
          return;
        } else {
          return true;
        }
      }
      return false;
    }

    /** The reading half of map_chunk.  When the read fails part of the range may have been written,
        with the file's own bytes, and the loaded set stays as it was. */
    method ReadAndAdd(ch: Chunk) returns (ok: bool)
      requires Valid() && ch.offset <= ch.end <= data.Length
      modifies this`chunks, data, reader`cursor, reader`requested
      ensures Valid()
      ensures reader.requested == old(reader.requested) + [(ch.offset, ch.end - ch.offset)]
      ensures ok ==> ch.offset < ch.end
      ensures ok ==> forall x :: Covers(chunks, x) <==> Covers(old(chunks), x) || ch.offset <= x < ch.end
      ensures !ok ==> chunks == old(chunks)
      ensures reader.reliable ==> ok == (ch.offset < ch.end)
    {
      var r := reader.Read(ch.offset, ch.end - ch.offset, data, ch.offset);
      if 0 < r {
        AddJoins(chunks, ch, data.Length);
        chunks := Add(chunks, ch);
        return true;
      }
      return false;
    }
  }
}
