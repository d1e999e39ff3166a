/** The 255-byte refill reader of the scanner. A descriptor is the sequence of blocks that
    successive read() calls return; after the last one read() returns zero. */
module Readers {

  const BUFFER_SIZE := 255

  /** What read() may return before the end of the file: between one byte and a full buffer. */
  ghost predicate Readable(blocks: seq<string>) {
    forall b :: b in blocks ==> 1 <= |b| <= BUFFER_SIZE
  }

  /** The bytes the reader hands out: the first short block is taken for the last one. */
  function Delivered(blocks: seq<string>): string {
    if blocks == [] then []
    else if |blocks[0]| == BUFFER_SIZE then blocks[0] + Delivered(blocks[1..])
    else blocks[0]
  }

  /** The bytes of the file. */
  function FileBytes(blocks: seq<string>): string {
    if blocks == [] then [] else blocks[0] + FileBytes(blocks[1..])
  }

  /** Every read() returned a full block until the last. */
  predicate FullUntilLast(blocks: seq<string>) {
    |blocks| <= 1 || (|blocks[0]| == BUFFER_SIZE && FullUntilLast(blocks[1..]))
  }

  /** The reader hands out the file exactly when no block follows a short one. */
  lemma {:induction false} DeliveredIsFile(blocks: seq<string>)
    requires Readable(blocks)
    ensures Delivered(blocks) == FileBytes(blocks) <==> FullUntilLast(blocks)
    ensures |Delivered(blocks)| <= |FileBytes(blocks)|
  {
    if |blocks| > 0 {
      assert Readable(blocks[1..]);
      DeliveredIsFile(blocks[1..]);
      var d, f := Delivered(blocks[1..]), FileBytes(blocks[1..]);
      if |blocks| == 1 {
        assert blocks[1..] == [];
      } else {
        assert blocks[1..][0] == blocks[1];
        assert |f| > 0;
      }
      if |blocks[0]| == BUFFER_SIZE {
        assert (blocks[0] + d)[BUFFER_SIZE..] == d && (blocks[0] + f)[BUFFER_SIZE..] == f;
      }
    }
  }

  /** A file of any length read in full blocks, multiples of 255 included. */
  function Chunks(file: string): (blocks: seq<string>)
    ensures Readable(blocks) && FullUntilLast(blocks) && FileBytes(blocks) == file
    decreases |file|
  {
    if file == [] then []
    else if |file| <= BUFFER_SIZE then
      var r := [file];
      assert r[1..] == [];
      r
    else
      var rest := Chunks(file[BUFFER_SIZE..]);
      var r := [file[..BUFFER_SIZE]] + rest;
      assert r[1..] == rest;
      r
  }

  /** Plain-cursor reading: any file delivered in full blocks is delivered entirely. */
  lemma ChunksDelivered(file: string)
    ensures Delivered(Chunks(file)) == file
  {
    DeliveredIsFile(Chunks(file));
  }

  class Reader {
    const buffer: array<char>
    var offset: nat
    var size: nat
    var eof: bool
    var blocks: seq<string>

    ghost predicate Valid()
      reads this
    {
      && buffer.Length == BUFFER_SIZE && Readable(blocks)
      && offset <= BUFFER_SIZE && size <= BUFFER_SIZE
      && (!eof ==> offset <= size)
    }

    /** The bytes still to be handed out: the abstract cursor. */
    ghost function Rest(): string
      requires Valid()
      reads this, buffer
    {
      if eof then []
      else buffer[offset..size] + (if size == 0 || size == BUFFER_SIZE then Delivered(blocks) else [])
    }

    constructor (fd: seq<string>)
      requires Readable(fd)
      ensures Valid() && fresh(buffer) && Rest() == Delivered(fd)
    {
      buffer := new char[BUFFER_SIZE];
      offset, size, eof := 0, 0, false;
      blocks := fd;
    }

    /** lcfg_scanner_buffer_fill. */
    method Fill()
      requires Valid() && !eof && offset == size && (size == 0 || size == BUFFER_SIZE)
      modifies this, buffer
      ensures Valid() && Rest() == old(Rest())
      ensures !eof ==> offset < size
    {
      if blocks == [] {
        size := 0;
        eof := true;
      } else {
        var b := blocks[0];
        blocks := blocks[1..];
        forall k | 0 <= k < |b| {
          buffer[k] := b[k];
        }
        size := |b|;
        offset := 0;
        assert buffer[..size] == b;
      }
    }

    /** lcfg_scanner_char_eof. */
    method CharEof() returns (end: bool)
      requires Valid()
      modifies this, buffer
      ensures Valid() && Rest() == old(Rest())
      ensures end <==> Rest() == []
      ensures !end ==> !eof && offset < size
    {
      if eof {
        return true;
      }
      if size == 0 || offset == BUFFER_SIZE {
        Fill();
      }
      if size < BUFFER_SIZE && offset == size {
        eof := true;
      }
      end := eof;
    }

    /** lcfg_scanner_char_peek: the next byte, or None beyond the end. */
    method CharPeek() returns (ok: bool, c: char)
      requires Valid()
      modifies this, buffer
      ensures Valid() && Rest() == old(Rest())
      ensures ok <==> Rest() != []
      ensures ok ==> c == Rest()[0]
    {
      c := '\0';
      var end := CharEof();
      ok := !end;
      if ok {
        c := buffer[offset];
      }
    }

    /** lcfg_scanner_char_read: the next byte, which is consumed. */
    method CharRead() returns (ok: bool, c: char)
      requires Valid()
      modifies this, buffer
      ensures Valid()
      ensures ok <==> old(Rest()) != []
      ensures Rest() == if ok then old(Rest())[1..] else []
      ensures ok ==> c == old(Rest())[0]
    {
      c := '\0';
      var end := CharEof();
      ok := !end;
      if ok {
        c := buffer[offset];
        offset := offset + 1;
      }
    }
  }
}
