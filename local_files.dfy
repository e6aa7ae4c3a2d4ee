/**
 * The local file system as the content observers see it: the outcome of
 * `stat`, of opening an `std::ifstream` and of reading it, and the bytes the
 * file holds. An exception thrown by the readers is an `Err` carrying its
 * `what()` text.
 */
module LocalFiles {
  import opened Basics

  /** One file, at the moment it is read. */
  datatype LocalFile = LocalFile(statOk: bool, opens: bool, readOk: bool, content: seq<CChar>, mtime: int)

  const OpenFailedPrefix: string := "Failed to open file: "
  const ReadFailedPrefix: string := "Failed to read file: "
  const StatFailedPrefix: string := "Failed to get file info: "

  /**
   * `readFileContent` (both versions): a buffer the length of the file
   * holding its bytes, or a `runtime_error` when the file does not open or
   * the read fails.
   */
  function ReadFileContent(filename: string, f: LocalFile): (r: Result<seq<CChar>, string>)
    ensures r.Ok? <==> f.opens && f.readOk
    ensures r.Ok? ==> |r.value| == |f.content| && r.value == f.content
    ensures !f.opens ==> r == Err(OpenFailedPrefix + filename)
    ensures f.opens && !f.readOk ==> r == Err(ReadFailedPrefix + filename)
  {
    if !f.opens then Err(OpenFailedPrefix + filename)
    else if !f.readOk then Err(ReadFailedPrefix + filename)
    else Ok(f.content)
  }
}
