/**
 * The current content observer (`dataFetch`, client version): for every
 * event kind except DELETED it reads the file with its metadata, renders the
 * SHA-256 digest as hex and shows a preview of at most 20 bytes; every read
 * failure is caught and logged. SHA-256 itself is a parameter.
 */
module DataFetch {
  import opened Basics
  import opened FileEvents
  import opened LocalFiles
  import opened HexFormat

  /** `SHA256_DIGEST_LENGTH`. */
  const DigestLength: nat := 32

  /** The number of leading bytes shown by the preview. */
  const PreviewLength: nat := 20

  type Digest = d: seq<byte> | |d| == DigestLength witness seq(32, _ => 0)

  /** `FileData`: what `readFileWithMetadata` gathers. */
  datatype FileData = FileData(filename: string, fileSize: int, modificationTime: int, content: seq<CChar>, checksum: string)

  /**
   * `calculateChecksum` after OpenSSL has produced the digest: the 32 bytes
   * in order, two lowercase digits each.
   */
  method CalculateChecksum(digest: Digest) returns (s: string)
    ensures s == Hex(digest)
    ensures |s| == 64 && ParseHex(s) == Some(digest)
  {
    s := [];
    var i := 0;
    while i < DigestLength
      invariant 0 <= i <= DigestLength
      invariant s == Hex(digest[..i])
    {
      s := s + HexByte(digest[i]);
      i := i + 1;
      assert digest[..i][..i - 1] == digest[..i - 1];
    }
    assert digest[..i] == digest;
    HexLayout(digest);
    HexRoundTrip(digest);
  }

  /**
   * `readFileWithMetadata`: `stat`, then open, then read the whole file,
   * then the checksum of the bytes read; each failure throws its own message.
   */
  function ReadFileWithMetadata(filename: string, f: LocalFile, sha256: seq<CChar> -> Digest): (r: Result<FileData, string>)
    ensures r.Ok? <==> f.statOk && f.opens && f.readOk
    ensures !f.statOk ==> r == Err(StatFailedPrefix + filename)
    ensures f.statOk && !f.opens ==> r == Err(OpenFailedPrefix + filename)
    ensures f.statOk && f.opens && !f.readOk ==> r == Err(ReadFailedPrefix + filename)
    ensures r.Ok? ==> r.value.filename == filename && r.value.content == f.content
                      && r.value.fileSize == |f.content| && r.value.modificationTime == f.mtime
    ensures r.Ok? ==> |r.value.checksum| == 64 && ParseHex(r.value.checksum) == Some(sha256(f.content))
  {
    if !f.statOk then Err(StatFailedPrefix + filename)
    else
      match ReadFileContent(filename, f)
      case Err(e) => Err(e)
      case Ok(content) =>
        HexLayout(sha256(content));
        HexRoundTrip(sha256(content));
        Ok(FileData(filename, |content|, f.mtime, content, Hex(sha256(content))))
  }

  /** What `handleFileChange` shows after the metadata. */
  datatype Preview = HexPreview(shown: seq<CChar>, contentSize: nat) | EmptyFile

  /** What `handleFileChange` reports: the file's description, or the caught exception's log line. */
  datatype Report = Described(data: FileData, preview: Preview) | ErrorLogged(message: string)

  /** The preview rule: the first min(size, 20) bytes, or "Empty file". */
  function PreviewOf(content: seq<CChar>): Preview
  {
    if content == [] then EmptyFile
    else HexPreview(content[..Min(|content|, PreviewLength)], |content|)
  }

  /** The preview shows exactly the first min(size, 20) bytes of a non-empty file, and the full size. */
  lemma PreviewSpec(content: seq<CChar>)
    ensures PreviewOf(content).EmptyFile? <==> content == []
    ensures PreviewOf(content).HexPreview? ==>
              var p := PreviewOf(content);
              |p.shown| == Min(|content|, PreviewLength) && p.shown <= content && p.contentSize == |content|
    ensures |content| <= PreviewLength ==> PreviewOf(content) == EmptyFile || PreviewOf(content).shown == content
  {
  }

  function HandleFileChange(filename: string, f: LocalFile, sha256: seq<CChar> -> Digest): Report
  {
    match ReadFileWithMetadata(filename, f, sha256)
    case Err(what) => ErrorLogged("Error processing file " + filename + ": " + what)
    case Ok(data) => Described(data, PreviewOf(data.content))
  }

  /**
   * `handleFileChange` never lets an exception out: it describes the file
   * exactly when all three reads succeed and logs the failure otherwise.
   */
  lemma HandleFileChangeSpec(filename: string, f: LocalFile, sha256: seq<CChar> -> Digest)
    ensures HandleFileChange(filename, f, sha256).Described? <==> f.statOk && f.opens && f.readOk
    ensures HandleFileChange(filename, f, sha256).Described? ==>
              var r := HandleFileChange(filename, f, sha256);
              r.data.content == f.content && r.preview == PreviewOf(f.content)
              && ParseHex(r.data.checksum) == Some(sha256(f.content))
    ensures !f.opens ==> HandleFileChange(filename, f, sha256)
                         == ErrorLogged("Error processing file " + filename + ": " + (if f.statOk then OpenFailedPrefix else StatFailedPrefix) + filename)
  {
    assert forall a: string, b: string, c: string :: a + (b + c) == a + b + c;
  }

  /** What `update` does with one notification. */
  datatype Reaction = NoAction | DeletionLogged(filename: string) | Handled(report: Report)

  function Update(ev: Option<FileEvent>, f: LocalFile, sha256: seq<CChar> -> Digest): Reaction
  {
    match ev
    case None => NoAction
    case Some(e) =>
      if e.filename == [] then NoAction
      else
        match e.eventType
        case Created => Handled(HandleFileChange(e.filename, f, sha256))
        case Modified => Handled(HandleFileChange(e.filename, f, sha256))
        case Deleted => DeletionLogged(e.filename)
        case AttribChanged => Handled(HandleFileChange(e.filename, f, sha256))
  }

  /**
   * The dispatch of `update`: no action on a null event or an empty name;
   * a DELETED event never reads the file, so its outcome does not depend on
   * it; the three other kinds handle the named file.
   */
  lemma UpdateSpec(ev: Option<FileEvent>, f: LocalFile, g: LocalFile, sha256: seq<CChar> -> Digest)
    ensures Update(ev, f, sha256) == NoAction <==> ev.None? || ev.value.filename == []
    ensures ev.Some? && ev.value.filename != [] && ev.value.eventType == Deleted ==>
              Update(ev, f, sha256) == DeletionLogged(ev.value.filename) == Update(ev, g, sha256)
    ensures ev.Some? && ev.value.filename != [] && ev.value.eventType != Deleted ==>
              Update(ev, f, sha256) == Handled(HandleFileChange(ev.value.filename, f, sha256))
  {
  }
}
