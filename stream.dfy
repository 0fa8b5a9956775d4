/** An open backup file read through a cursor, as readFile and setFilePointer
    use a std::fstream.  Every failed read or seek is fatal. */
module FileStream {
  import opened Bytes
  import opened Results

  /** The file's bytes and the stream position.  The position may lie past the
      end: seeking there succeeds and only a later read fails. */
  datatype Stream = Stream(data: seq<byte>, pos: nat)

  /** readFile: n bytes from the position.  std::istream::read of zero bytes
      succeeds anywhere; otherwise the read fails when fewer than n bytes remain. */
  function Read(s: Stream, n: nat): (r: Result<(seq<byte>, Stream)>)
    ensures r.Ok? <==> n == 0 || s.pos + n <= |s.data|
    ensures r.Ok? ==> |r.value.0| == n && r.value.1 == s.(pos := s.pos + n)
    ensures r.Ok? && n > 0 ==> r.value.0 == s.data[s.pos..s.pos + n]
  {
    if n == 0 then Ok(([], s))
    else if s.pos + n <= |s.data| then Ok((s.data[s.pos..s.pos + n], s.(pos := s.pos + n)))
    else Err(ReadFailed)
  }

  /** setFilePointer: a seek to a negative position fails. */
  function Seek(s: Stream, target: int): (r: Result<Stream>)
    ensures r.Ok? <==> target >= 0
    ensures r.Ok? ==> r.value.data == s.data && r.value.pos == target
  {
    if target < 0 then Err(SeekFailed) else Ok(s.(pos := target))
  }

  /** setFilePointer(file, off, std::ios::beg). */
  function SeekBeg(s: Stream, off: int): (r: Result<Stream>)
    ensures r.Ok? <==> off >= 0
    ensures r.Ok? ==> r.value == s.(pos := off)
  {
    Seek(s, off)
  }

  /** setFilePointer(file, off, std::ios::cur). */
  function SeekCur(s: Stream, off: int): (r: Result<Stream>)
    ensures r.Ok? <==> s.pos + off >= 0
    ensures r.Ok? ==> r.value == s.(pos := s.pos + off)
  {
    Seek(s, s.pos + off)
  }

  /** setFilePointer(file, off, std::ios::end). */
  function SeekEnd(s: Stream, off: int): (r: Result<Stream>)
    ensures r.Ok? <==> |s.data| + off >= 0
    ensures r.Ok? ==> r.value == s.(pos := |s.data| + off)
  {
    Seek(s, |s.data| + off)
  }

  /** openFile: a freshly opened stream is at position 0. */
  function Open(data: seq<byte>): (s: Stream)
    ensures s.data == data && s.pos == 0
  {
    Stream(data, 0)
  }
}
