/**
 * The older content observer (filesMonitor/dataFetch.cpp): it dumps the
 * whole file in hex, reports an empty file as a read failure, and does not
 * catch the exceptions of `readFileContent`, so they leave `update` as `Err`.
 */
module LegacyDataFetch {
  import opened Basics
  import opened FileEvents
  import opened LocalFiles

  /** What `handleFileChange` prints: every byte in hex with the size, or the read-failure notice. */
  datatype Output = HexDump(bytes: seq<CChar>, contentSize: nat) | ReadFailureNotice(message: string)

  const ReadFailureNoticePrefix: string := "Failed to read content of "

  function HandleFileChange(filename: string, f: LocalFile): Result<Output, string>
  {
    match ReadFileContent(filename, f)
    case Err(e) => Err(e)
    case Ok(content) =>
      if content != [] then Ok(HexDump(content, |content|))
      else Ok(ReadFailureNotice(ReadFailureNoticePrefix + filename))
  }

  /**
   * Non-empty content is dumped in full, not truncated; an empty file is
   * reported as if it could not be read; open and read failures propagate.
   */
  lemma HandleFileChangeSpec(filename: string, f: LocalFile)
    ensures HandleFileChange(filename, f).Err? <==> !f.opens || !f.readOk
    ensures HandleFileChange(filename, f).Err? ==> HandleFileChange(filename, f).error == ReadFileContent(filename, f).error
    ensures f.opens && f.readOk && f.content != [] ==> HandleFileChange(filename, f) == Ok(HexDump(f.content, |f.content|))
    ensures f.opens && f.readOk && f.content == [] ==>
              HandleFileChange(filename, f) == Ok(ReadFailureNotice(ReadFailureNoticePrefix + filename))
  {
  }

  /** What `update` does with one notification, or the exception that escapes it. */
  datatype Reaction = NoAction | DeletionLogged(filename: string) | Handled(output: Output)

  function Update(ev: Option<FileEvent>, f: LocalFile): Result<Reaction, string>
  {
    match ev
    case None => Ok(NoAction)
    case Some(e) =>
      if e.filename == [] then Ok(NoAction)
      else if e.eventType == Deleted then Ok(DeletionLogged(e.filename))
      else
        match HandleFileChange(e.filename, f)
        case Err(what) => Err(what)
        case Ok(out) => Ok(Handled(out))
  }

  /**
   * The dispatch of `update`: no action on a null event or an empty name;
   * DELETED never reads the file and so never throws; for the other kinds
   * an exception escapes exactly when the file cannot be opened or read.
   */
  lemma UpdateSpec(ev: Option<FileEvent>, f: LocalFile, g: LocalFile)
    ensures Update(ev, f) == Ok(NoAction) <==> ev.None? || ev.value.filename == []
    ensures ev.Some? && ev.value.filename != [] && ev.value.eventType == Deleted ==>
              Update(ev, f) == Ok(DeletionLogged(ev.value.filename)) == Update(ev, g)
    ensures ev.Some? && ev.value.filename != [] && ev.value.eventType != Deleted ==>
              (Update(ev, f).Err? <==> !f.opens || !f.readOk)
  {
    if ev.Some? && ev.value.filename != [] && ev.value.eventType != Deleted {
      HandleFileChangeSpec(ev.value.filename, f);
    }
  }
}
