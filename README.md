# filesServer — a Dafny model of the watcher and its observers

filesServer is a Linux client that watches one directory with inotify. It turns each raw notification into at most one
file event: CREATED, MODIFIED, DELETED or ATTRIB_CHANGED. The event goes to registered observers, which do one of
three things:

- upload the file to a REST server (`RestApiMngr`);
- transfer it over SFTP (`sftpMngr`);
- print its metadata, checksum and a hex preview (`dataFetch`, in a current and an older version).

This project models that core and proves what its code and documentation promise.

- `basics.dfy` holds `Option`, `Result`, the `byte` and signed `CChar` types, and the `(unsigned char)` conversion.
- `file_events.dfy` holds the `EventType` and `FileEvent` values that observers receive.
- `filters.dfy` holds the substring filter list. Its predicates and list operations define what adding and removing a
  filter mean.
- `watcher.dfy` holds the `filesMonitor` class. The class covers:
  - the run flag;
  - the inotify descriptor state and the `close` / `inotify_rm_watch` calls it makes;
  - the filters;
  - the classification of one raw record;
  - the walk over a buffer of records;
  - the sequence of values handed to `notify`.
- `rest_api.dfy` models `RestApiMngr`:
  - routing an event to an upload or delete task on the FIFO queue;
  - the request each task performs, and its URL;
  - the two-second per-file debounce documented for `shouldSendFile`.
- `sftp.dfy` models `sftpMngr`'s two nullable session handles and the chunked upload loop. It also covers routing:
  only a creation is transferred, to `/remote/path/` + name.
- `hex_format.dfy` holds the lowercase two-digit hex rendering shared by the content observers. It includes its
  inverse `ParseHex` and the `printVectorAsHex` loop.
- `local_files.dfy` holds a file as the readers see it, and `readFileContent`.
- `data_fetch.dfy` models the current content observer, including `calculateChecksum`.
- `legacy_data_fetch.dfy` models the older one, whose exceptions escape `update`.

Outcome parameters stand in for the system and library calls. These are `inotify_init1` and `inotify_add_watch`
results, the libssh answers, curl's init/perform results, whether a file opens or reads, and the `sftp_write` return
values. SHA-256 is a function parameter yielding a 32-byte digest. The clock is an integer number of milliseconds.

Where the code and its documentation disagree, the model follows the code.

- `processEvent` hands observers only a heap `std::string` holding the filename (filesMonitor/filesMonitor.cpp:149-165).
  Observers cast that payload to `FileEvent*`. So the watcher model records only filenames as notified. The kind it
  computes is returned as `computed` and is never sent. Observers are modelled on `Option<FileEvent>`, where `None` is
  a null pointer, as their code is written.
- `sendFile` is documented as an HTTP POST (src/client/restApiMngr.h:47). The code sets `CURLOPT_UPLOAD`, which makes
  curl issue a PUT, so the model's upload request is a `Put`.
- `shouldSendFile` is declared and documented but neither defined nor called. It is modelled from its documentation
  as a predicate over the upload table and the current time. Recording an upload in the table is the separate
  `RecordUpload`. No upload path consults the table, so every event is queued.

## Model

| member | source | states |
|---|---|---|
| Basics.UnsignedRoundTrip | src/client/dataFetch.cpp:11 | taking a `char` as `unsigned char` and back is the identity both ways, so no byte value is lost or merged |
| Filters.OccursIffSplit | filesMonitor/filesMonitor.cpp:84 | a pattern "is found" in a name iff the name splits as a + pattern + b, which is what `find != npos` means |
| Filters.WithFilter | filesMonitor/filesMonitor.cpp:59-65 | after adding, the pattern is present and the set of patterns grows by exactly it; a present pattern leaves the list unchanged, an absent one is appended at the end |
| Filters.WithoutFilter | filesMonitor/filesMonitor.cpp:67-71 | after removal the pattern is absent, every other pattern keeps its membership, and the list does not grow |
| Filters.AddFilterExactlyOnce | filesMonitor/filesMonitor.cpp:59-65 | on a duplicate-free list, adding leaves exactly one copy of the pattern, keeps the list duplicate-free and leaves every other pattern's count unchanged |
| Filters.WithoutFilterAppend | filesMonitor/filesMonitor.cpp:67-71 | erase-remove works piecewise over a concatenation, so the relative order of the remaining patterns is preserved |
| Filters.WithoutFilterCounts | filesMonitor/filesMonitor.cpp:67-71 | removal deletes every occurrence of the pattern and no occurrence of any other pattern |
| Filters.WithoutAbsentFilter | filesMonitor/filesMonitor.cpp:67-71 | removing a pattern that is not present leaves the list unchanged |
| Filters.AddThenRemove | filesMonitor/filesMonitor.cpp:59-71 | adding an absent pattern and then removing it restores the original list |
| Filters.WithoutFilterNoDuplicates | filesMonitor/filesMonitor.cpp:67-71 | removal keeps a duplicate-free list duplicate-free |
| Filters.ReportFilterExample | src/client/filesMonitor.h:73-79 | with the single filter "report", "report_2024.csv" is accepted and "image.png" is not: substring, not glob, matching |
| Watcher.ClassifySpec | filesMonitor/filesMonitor.cpp:151-166 | no kind iff none of the CREATE, DELETE, MODIFY, ATTRIB bits is set; otherwise the chosen kind's bit is set and every kind of higher precedence (CREATE > DELETE > MODIFY > ATTRIB) has its bit clear |
| Watcher.ClassifyDetermined | filesMonitor/filesMonitor.cpp:151-166 | conversely, a kind whose bit is set while all higher-precedence bits are clear is the kind chosen |
| Watcher.ClassifyIgnoresOtherBits | filesMonitor/filesMonitor.cpp:151-166 | bits outside the four watched ones never change the classification |
| Watcher.ClassifyExamples | filesMonitor/filesMonitor.cpp:151-166 | CREATE with MODIFY is a creation, DELETE with ATTRIB a deletion, ATTRIB with ISDIR an attribute change, an empty mask nothing |
| Watcher.CString | filesMonitor/filesMonitor.cpp:137 | the filename is the longest NUL-free prefix of the record's name field, ending at its first NUL or at the end of the field |
| Watcher.ProcessSpec | filesMonitor/filesMonitor.cpp:128-167 | a record is notified iff its name length is non-zero, it is not a directory event, the filters accept its filename and its mask has a watched bit; what is notified is the filename, with the kind classification picks |
| Watcher.PayloadsAtMostOnePerRecord | filesMonitor/filesMonitor.cpp:213-219 | a buffer of n records yields at most n notifications, each of a filename the filters accept |
| Watcher.OffsetsUpToSpec | filesMonitor/filesMonitor.cpp:214-219 | under the walk's bounds, the k-th offset visited is the sum of header size plus name length of the k records before it, and lies inside the buffer |
| Watcher.OffsetsIncrease | filesMonitor/filesMonitor.cpp:218 | record offsets strictly increase, by at least the 16-byte header per record |
| Watcher.FilesMonitor.constructor | filesMonitor/filesMonitor.cpp:17-27 | a new watcher is stopped, holds descriptors -1, has no filters and has notified nothing |
| Watcher.NewFilesMonitor | filesMonitor/filesMonitor.cpp:17-27 | construction fails with `invalid_argument` iff the directory path is empty; otherwise the new watcher is in its initial state |
| Watcher.FilesMonitor.SetupInotify | filesMonitor/filesMonitor.cpp:92-113 | true iff both calls succeed; an init failure leaves the descriptor -1 with no calls; a watch failure closes the fresh descriptor and leaves both -1; success stores both descriptors |
| Watcher.FilesMonitor.CleanupInotify | filesMonitor/filesMonitor.cpp:115-126 | the watch is removed if held, then the descriptor closed if held; both end at -1; with nothing held no call is made, so it is idempotent |
| Watcher.FilesMonitor.Start | filesMonitor/filesMonitor.cpp:35-51 | while running it returns false and changes nothing; otherwise it returns true iff inotify setup succeeds, raising the run flag only then, and a failure leaves the watcher stopped with no descriptors |
| Watcher.FilesMonitor.Stop | filesMonitor/filesMonitor.cpp:53-57 | clean-up releases both descriptors with the calls of `cleanupInotify`, and the run flag keeps its value |
| Watcher.FilesMonitor.StopClearingRunFlag | filesMonitor/filesMonitor.cpp:53-57 | the corrected stop: the run flag is lowered first, then the same clean-up, leaving a stopped watcher that holds no descriptor |
| Watcher.FilesMonitor.Destroy | filesMonitor/filesMonitor.cpp:29-33 | the destructor releases what is held, exactly once: the second clean-up makes no call |
| Watcher.FilesMonitor.AddFilter | filesMonitor/filesMonitor.cpp:59-65 | the filter list becomes the list with the pattern added if absent, which holds it exactly once, and stays duplicate-free |
| Watcher.FilesMonitor.RemoveFilter | filesMonitor/filesMonitor.cpp:67-71 | the filter list becomes the list with every occurrence removed, and stays duplicate-free |
| Watcher.FilesMonitor.MatchesFilter | filesMonitor/filesMonitor.cpp:73-90 | true iff there are no filters or some filter occurs as a substring of the filename |
| Watcher.FilesMonitor.ProcessEvent | filesMonitor/filesMonitor.cpp:128-167 | appends to the notified values exactly the per-record decision's payload (the filename or nothing), and the event it builds carries that filename and the classified kind |
| Watcher.FilesMonitor.ProcessBuffer | filesMonitor/filesMonitor.cpp:213-219 | on a buffer filled exactly by well-formed records, every record is visited once, in order, at the offset the header-plus-length rule gives and inside the buffer; the notified values grow by exactly the decisions for all the records |
| Watcher.NotifiedNameInField | filesMonitor/filesMonitor.cpp:133-137 | for a well-formed record, a notified filename is a prefix of the name field ending before its terminating NUL, so it never reaches past the `len` bytes of the field |
| Watcher.RestartAfterStop | filesMonitor/filesMonitor.cpp:35-57 | as written, and provided `Stop` returns (the join is not modelled), start, stop, start returns true and then false |
| Watcher.RestartAfterCorrectedStop | filesMonitor/filesMonitor.cpp:35-57 | with the corrected stop the same sequence returns true twice |
| RestApi.TaskFor | src/client/restApiMngr.cpp:22-56 | no task iff the event is null or its filename empty; otherwise a task for that filename, which is a delete iff the event is DELETED |
| RestApi.EnqueuedAppend | src/client/restApiMngr.h:37-43 | the queue is FIFO: the tasks of later notifications follow those of earlier ones |
| RestApi.EnqueuedOnePerAcceptedEvent | src/client/restApiMngr.cpp:22-56 | a run of notifications queues at most one task each; when all are routable, exactly the routed task of each, in order |
| RestApi.RepeatedModificationsQueueRepeatedUploads | src/client/restApiMngr.cpp:113-119 | n MODIFIED notifications for one file queue n uploads of it: nothing debounces them |
| RestApi.FinalComponent | src/client/restApiMngr.cpp:96 | the delete URL's name is the longest slash-free suffix of the path, preceded in the path by a '/' when shorter than it |
| RestApi.FinalComponentAfterSlash | src/client/restApiMngr.cpp:96 | whatever directory part precedes the last '/', the final component is what follows it |
| RestApi.FinalComponentOfPath | src/client/restApiMngr.cpp:96 | a path dir/name and the bare name give the same final component, hence the same delete URL |
| RestApi.FirstUploadNeverSuppressed | src/client/restApiMngr.h:78-83 | a file with no entry in the upload table is always to be sent |
| RestApi.DebounceAfterRecord | src/client/restApiMngr.h:78-83 | after an upload recorded at t, the file is suppressed up to t + 2000 ms and sent again afterwards, and other files are unaffected |
| RestApi.RestApiMngr.constructor | src/client/restApiMngr.cpp:7-11 | a new manager keeps the server URL and starts with an empty queue and an empty upload table |
| RestApi.RestApiMngr.Update | src/client/restApiMngr.cpp:22-56 | the queue grows at its tail by exactly the routed task, if any, and the upload table is unchanged: update only queues work |
| RestApi.RestApiMngr.HandleFileCreation | src/client/restApiMngr.cpp:105-111 | appends one upload of the filename |
| RestApi.RestApiMngr.HandleFileModification | src/client/restApiMngr.cpp:113-119 | appends one upload of the filename |
| RestApi.RestApiMngr.HandleFileDeletion | src/client/restApiMngr.cpp:121-127 | appends one delete of the filename |
| RestApi.RestApiMngr.SendFile | src/client/restApiMngr.cpp:58-85 | a request is made iff curl initialises and the file opens; it is a PUT to server URL + "/upload"; the result is true iff a request was made and it succeeded |
| RestApi.RestApiMngr.DeleteFile | src/client/restApiMngr.cpp:87-103 | a request is made iff curl initialises; it is a DELETE to server URL + "/file/" + the path's final component; true iff it succeeded |
| RestApi.RestApiMngr.RunTask | src/client/restApiMngr.cpp:105-127 | an upload task performs the upload request and a delete task the delete request under the same outcome conditions |
| RestApi.RestApiMngr.RecordUpload | src/client/restApiMngr.h:91-92 | one entry per file, holding the latest upload time; the key set grows by at most that file |
| Sftp.DisconnectStep | src/client/sftpMngr.cpp:68-84 | after disconnect both handles are null, which satisfies the invariant |
| Sftp.DisconnectIdempotent | src/client/sftpMngr.cpp:68-84 | disconnecting twice is the same as once |
| Sftp.InitializeSftpSpec | src/client/sftpMngr.cpp:87-112 | preserves "SFTP held implies SSH held"; never touches the SSH handle; true iff an SSH session is held and `sftp_new` and `sftp_init` succeed, and then true iff the SFTP handle ends non-null |
| Sftp.ConnectOutcomes | src/client/sftpMngr.cpp:23-65 | an `ssh_new`, connect or authentication failure returns false with the SSH handle null; an SFTP failure returns false with the SFTP handle null and the new SSH session held; full success holds both new handles and returns true |
| Sftp.ConnectOkIffEstablished | src/client/sftpMngr.cpp:23-65 | from a state without an SFTP session, connect returns true iff the SFTP session ends up established, and the invariant holds after it |
| Sftp.ConnectCoherence | src/client/sftpMngr.cpp:23-65 | connect keeps the invariant iff no SFTP session was held before or the SSH stage succeeds |
| Sftp.ReconnectBreaksCoherence | src/client/sftpMngr.cpp:26 | a successful connect followed by one whose `ssh_new` fails leaves an SFTP handle over a null SSH handle |
| Sftp.ConnectFreshSpec | src/client/sftpMngr.cpp:23-65 | connect preceded by disconnect keeps the invariant from every state and returns true iff both stages succeed, iff the SFTP session is established |
| Sftp.ChunksFlatten | src/client/sftpMngr.cpp:143-161 | the chunks read, concatenated in order, are exactly the file |
| Sftp.ChunkSizes | src/client/sftpMngr.cpp:143-161 | every chunk holds 1 to 4096 bytes, all but the last exactly 4096, and there are ceil(size / 4096) of them |
| Sftp.SendWritesChunks | src/client/sftpMngr.cpp:143-161 | the buffers written are the file's chunks in order from the first: a prefix of the chunk sequence |
| Sftp.SendWritesFullUntilLast | src/client/sftpMngr.cpp:152-159 | every write before the last returned exactly the number of bytes read |
| Sftp.SendFailsOnShortWrite | src/client/sftpMngr.cpp:154-158 | a failed transfer has written at least one buffer and stopped right after the first write whose count differs from the bytes read |
| Sftp.SendOkIff | src/client/sftpMngr.cpp:143-167 | the transfer succeeds iff every chunk of the file was written and each write returned its full size |
| Sftp.WriteChunks | src/client/sftpMngr.cpp:143-167 | the loop reading up to 4096 bytes at a time and writing them produces exactly the result and the writes of the reference transfer |
| Sftp.TransferFor | src/client/sftpMngr.cpp:171-232 | a transfer happens iff the event is non-null, its filename non-empty and its kind CREATED; it sends that file to "/remote/path/" + filename |
| Sftp.SftpMngr.constructor | src/client/sftpMngr.cpp:8-14 | the connection parameters are kept and both handles start null |
| Sftp.SftpMngr.Connect | src/client/sftpMngr.cpp:23-65 | result and new handles are those of the connect transition from the old handles |
| Sftp.SftpMngr.InitializeSftp | src/client/sftpMngr.cpp:87-112 | result and new handles are those of the initialise transition from the old handles |
| Sftp.SftpMngr.Disconnect | src/client/sftpMngr.cpp:68-84 | the new handles are those of the disconnect transition: both null |
| Sftp.SftpMngr.Destroy | src/client/sftpMngr.cpp:17-20 | the destructor leaves both handles null |
| Sftp.SftpMngr.SendFile | src/client/sftpMngr.cpp:115-168 | no write and false when not connected, when the local file does not open or the remote file cannot be created; otherwise the writes are a prefix of the file's chunks in order, all but the last written in full, a false result following a short last write; true iff every chunk is written in full |
| Sftp.SftpMngr.Update | src/client/sftpMngr.cpp:171-214 | the transfer made is the routed one, and nothing is written when there is none |
| HexFormat.DigitRoundTrip | src/client/dataFetch.cpp:168 | each value 0 .. 15 has one lowercase digit, which reads back as the value, and each lowercase digit is the rendering of its value |
| HexFormat.HexLayout | src/client/dataFetch.cpp:166-171 | the hex text has two characters per byte, byte i at positions 2i and 2i+1 high nibble first, all lowercase hex digits |
| HexFormat.SpacedHexLayout | src/client/dataFetch.cpp:10-15 | the spaced text has three characters per byte: byte i's two digits at 3i and 3i+1, then a space |
| HexFormat.HexRoundTrip | src/client/dataFetch.cpp:157-172 | reading back the hex text of any byte sequence gives that sequence |
| HexFormat.ParseHexCanonical | src/client/dataFetch.cpp:157-172 | any text that reads back is exactly the hex rendering of what it reads as: the encoding is canonical |
| HexFormat.PrintVectorAsHex | src/client/dataFetch.cpp:10-15 | the output is every element taken as unsigned, two digits and a space each, then a newline; the older copy at filesMonitor/dataFetch.cpp:8-13 is identical |
| LocalFiles.ReadFileContent | src/client/dataFetch.cpp:98-117 | a buffer of the file's length holding its bytes iff the file opens and reads; otherwise the open or read error with its message; the older copy at filesMonitor/dataFetch.cpp:87-106 is identical |
| DataFetch.CalculateChecksum | src/client/dataFetch.cpp:157-172 | the checksum is the hex text of the 32-byte digest: 64 characters which read back as the digest |
| DataFetch.ReadFileWithMetadata | src/client/dataFetch.cpp:120-155 | succeeds iff stat, open and read all succeed, each failure throwing its own message in that order; on success it records the name, the bytes, their count, the modification time and a checksum that reads back as the file's digest |
| DataFetch.PreviewSpec | src/client/dataFetch.cpp:82-92 | an empty file is reported as such; otherwise the preview is exactly the first min(size, 20) bytes, with the full size |
| DataFetch.HandleFileChangeSpec | src/client/dataFetch.cpp:69-96 | describes the file iff all three reads succeed, with its bytes, its preview and its checksum; every failure is caught and logged with the file's name and the exception's message |
| DataFetch.UpdateSpec | src/client/dataFetch.cpp:27-67 | no action iff the event is null or its filename empty; DELETED is logged without reading the file, so the result does not depend on it; the other kinds handle the named file |
| LegacyDataFetch.HandleFileChangeSpec | filesMonitor/dataFetch.cpp:69-84 | an exception escapes iff the file does not open or read, carrying the reader's message; non-empty content is dumped in full with its size; an empty file is reported as a failure to read |
| LegacyDataFetch.UpdateSpec | filesMonitor/dataFetch.cpp:25-67 | no action iff the event is null or its filename empty; DELETED never reads the file and never throws; for the other kinds an exception escapes update iff the file does not open or read |

## Left out

- Threads, `ThreadBase` and `QueueThread` are left out. The watcher's `thread()` loop, `poll` with its 500 ms timeout and the `read` of up to 4096 bytes are OS I/O. Only the walk over one buffer's records is modelled, and it takes the records, already decoded, as an argument.
- Watcher.FilesMonitor.ProcessBuffer: the records are given as values rather than decoded from raw bytes. Its precondition asks that the records fill the `length` bytes exactly and that each name field holds `len` bytes with a NUL in it, which is how the kernel fills the buffer. A truncated or malformed buffer, on which the source would read past its records or its buffer, is not modelled.
- `std::mutex` locking in the filter operations is left out, as is concurrent access between the watching thread and the caller. Every operation is modelled as atomic.
- `Subject`, `IObserver` and observer registration are not part of this model. The watcher records the values passed to `notify`, and each observer is modelled on the event it would receive.
- The watcher hands observers a `std::string*`, which they read as a `FileEvent*`. That reinterpretation is undefined behaviour, so no observer is composed with the watcher. The heap filename is also never freed. A memory leak is outside this model.
- Console and error-stream output is left out: log lines and the `Event received` trace. So is the sticky `std::hex` that makes later decimal output print in hex, and `std::ctime` formatting of the modification time.
- libssh, libcurl, OpenSSL SHA-256, `stat` and `std::ifstream` are foreign code. Each is represented by the outcomes it returns.
- Sftp.SftpMngr.SendFile: a write count is an unconstrained integer. A stream error other than end of file is not modelled. Nor is the `filesystem_error` that the throwing `std::filesystem::file_size` (src/client/sftpMngr.cpp:131) raises when the opened path has been removed or is not a regular file: the exception leaves `sendFile` without a result, while the model always returns one. The size it reads is never used, so it has no other effect.
- RestApi.RestApiMngr.SendFile: curl reads the body through `CURLOPT_READDATA` pointed at an `std::ifstream`, with no read callback. The body sent is therefore not modelled, and neither is `CURLOPT_INFILESIZE_LARGE`. Nor is the `filesystem_error` that the throwing `std::filesystem::file_size` (src/client/restApiMngr.cpp:80) raises when the opened path has been removed or is not a regular file: the exception leaves `sendFile` without a result and skips `curl_easy_cleanup`, leaking the handle, while the model always returns a result.
- The REST server in local-rest-api-server mounts its routes under `/api/files` (local-rest-api-server/src/server.js:15). The client builds URLs directly on the configured base, so they only reach the routes if the base already ends in `/api/files`. The JavaScript server is not part of this model.
- RestApi.ShouldSendFile and RestApi.RestApiMngr.RecordUpload are modelled from the header. The source neither defines nor calls `shouldSendFile`, and nothing in the source writes the upload table.
- `handleFileModification` and `handleFileDeletion` of `sftpMngr` are declared (src/client/sftpMngr.h:76-77) but never defined. MODIFIED and ATTRIB_CHANGED only log and DELETED returns, so none of them transfers anything.
- Signal handling, `programKeeper`, the `main` programs and the timer utilities are not part of this model.
- DataFetch.ReadFileWithMetadata: the size is taken as the number of bytes read. A file whose `stat` size differs from what is read, because it changed in between, is not modelled.
- Watcher.FilesMonitor.Stop: `ThreadBase::stop` is not part of this model. Joining the thread and whatever flag it lowers are left out. The model's `Stop` always returns, whereas the source's may block: if `stop()` joins as its comment says (filesMonitor/filesMonitor.cpp:55), it waits for `thread()`, whose loop runs while `m_run_flag` is set (filesMonitor/filesMonitor.cpp:180), and nothing lowers that flag. The same holds for the destructor. See the first finding.

## Findings

| source | as written | input that shows it | evidently intended | confidence | as-written member | corrected member |
|---|---|---|---|---|---|---|
| filesMonitor/filesMonitor.cpp:53-57 | `Stop` cleans up inotify but never clears `m_run_flag`. `Start` refuses while the flag is set, and the thread loop tests that same flag. | `Start()` succeeds, then `Stop()`: if `ThreadBase::stop` joins as the comment at :55 says, `Stop()` blocks in the join, because `thread()` loops while the flag is set (:180); if `Stop()` returns, a following `Start()` returns false | `Stop` lowers the run flag before `stop()` joins, so that `thread()` can end and the watcher can be started again. The model leaves the join out, so it cannot tell that order from lowering the flag after the clean-up; `StopClearingRunFlag` lowers it first | not executed | Watcher.RestartAfterStop | Watcher.RestartAfterCorrectedStop |
| src/client/sftpMngr.cpp:23-65 | `connect` overwrites the SSH handle without releasing an existing session. If `ssh_new`, `ssh_connect` or authentication then fails, the old SFTP handle is left over a null SSH handle. | a successful `connect()`, then a second `connect()` whose `ssh_new` returns null | `connect` releases any held session first, so an SFTP session is only ever held over an SSH session | not executed | Sftp.ReconnectBreaksCoherence | Sftp.ConnectFreshSpec |
