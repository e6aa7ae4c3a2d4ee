/**
 * The REST sink (`RestApiMngr`): turns observer notifications into tasks on
 * its queue, builds the upload and delete requests a task performs, and
 * keeps the per-file "last uploaded" table its header documents. libcurl is
 * represented by outcome parameters; the queue's worker thread is not modelled.
 */
module RestApi {
  import opened Basics
  import opened FileEvents

  /** A queued unit of work; the lambda captures the filename by value. */
  datatype Task = Upload(filename: string) | Delete(filename: string)

  /** The HTTP method libcurl uses: `CURLOPT_UPLOAD` issues a PUT; `CURLOPT_CUSTOMREQUEST` "DELETE". */
  datatype Verb = Put | DeleteVerb

  datatype HttpRequest = HttpRequest(verb: Verb, url: string)

  /** The debounce window of `shouldSendFile`, in milliseconds. */
  const DebounceWindowMs: int := 2000

  /**
   * The routing of `update`: nothing for a null event or an empty filename;
   * otherwise a delete for DELETED and an upload for the three other kinds.
   */
  function TaskFor(ev: Option<FileEvent>): (r: Option<Task>)
    ensures r.None? <==> ev.None? || ev.value.filename == []
    ensures r.Some? ==> r.value.filename == ev.value.filename
    ensures r.Some? ==> (r.value.Delete? <==> ev.value.eventType == Deleted)
  {
    match ev
    case None => None
    case Some(e) =>
      if e.filename == [] then None
      else
        match e.eventType
        case Created => Some(Upload(e.filename))
        case Modified => Some(Upload(e.filename))
        case Deleted => Some(Delete(e.filename))
        case AttribChanged => Some(Upload(e.filename))
  }

  /** The tasks a run of `update` calls appends to the queue, in call order. */
  function Enqueued(events: seq<Option<FileEvent>>): seq<Task>
  {
    if events == [] then []
    else
      Enqueued(events[..|events| - 1])
      + (match TaskFor(events[|events| - 1]) case None => [] case Some(t) => [t])
  }

  /** Queueing is FIFO: the tasks of a later batch of events come after those of an earlier one. */
  lemma {:induction false} EnqueuedAppend(a: seq<Option<FileEvent>>, b: seq<Option<FileEvent>>)
    ensures Enqueued(a + b) == Enqueued(a) + Enqueued(b)
    decreases |b|
  {
    if b == [] {
      assert a + b == a;
    } else {
      assert (a + b)[..|a + b| - 1] == a + b[..|b| - 1];
      EnqueuedAppend(a, b[..|b| - 1]);
    }
  }

  /** Exactly one task per accepted event, none per rejected one, in event order. */
  lemma {:induction false} EnqueuedOnePerAcceptedEvent(events: seq<Option<FileEvent>>)
    ensures |Enqueued(events)| <= |events|
    ensures (forall i :: 0 <= i < |events| ==> TaskFor(events[i]).Some?) ==>
              |Enqueued(events)| == |events|
              && forall i :: 0 <= i < |events| ==> Enqueued(events)[i] == TaskFor(events[i]).value
  {
    if events != [] {
      var init := events[..|events| - 1];
      EnqueuedOnePerAcceptedEvent(init);
      if forall i :: 0 <= i < |events| ==> TaskFor(events[i]).Some? {
        assert forall i :: 0 <= i < |init| ==> TaskFor(init[i]).Some? by {
          forall i | 0 <= i < |init| ensures TaskFor(init[i]).Some? {
            assert init[i] == events[i];
          }
        }
      }
    }
  }

  /** Nothing debounces uploads: n MODIFIED events for one file queue n uploads of it. */
  lemma {:induction false} RepeatedModificationsQueueRepeatedUploads(f: string, n: nat)
    requires f != []
    ensures Enqueued(seq(n, _ => Some(FileEvent(f, Modified)))) == seq(n, _ => Upload(f))
  {
    if n > 0 {
      var evs := seq(n, _ => Some(FileEvent(f, Modified)));
      assert evs[..n - 1] == seq(n - 1, _ => Some(FileEvent(f, Modified)));
      RepeatedModificationsQueueRepeatedUploads(f, n - 1);
      assert seq(n, _ => Upload(f)) == seq(n - 1, _ => Upload(f)) + [Upload(f)];
    }
  }

  /**
   * `std::filesystem::path(p).filename()` for a POSIX path: the longest
   * suffix without a '/', empty when the path ends with '/'.
   */
  function FinalComponent(p: string): (r: string)
    ensures '/' !in r
    ensures |r| <= |p| && r == p[|p| - |r|..]
    ensures |r| < |p| ==> p[|p| - |r| - 1] == '/'
  {
    if p == [] then []
    else if p[|p| - 1] == '/' then []
    else FinalComponent(p[..|p| - 1]) + [p[|p| - 1]]
  }

  /** The final component of a path whose last '/' precedes `name` is `name`. */
  lemma {:induction false} FinalComponentAfterSlash(dir: string, name: string)
    requires '/' !in name
    requires dir == [] || dir[|dir| - 1] == '/'
    ensures FinalComponent(dir + name) == name
    decreases |name|
  {
    if name == [] {
      assert dir + name == dir;
    } else {
      var init := name[..|name| - 1];
      assert (dir + name)[..|dir + name| - 1] == dir + init;
      assert name == init + [name[|name| - 1]];
      FinalComponentAfterSlash(dir, init);
    }
  }

  /** A delete URL names only the final component, so a path and its bare filename hit the same URL. */
  lemma FinalComponentOfPath(dir: string, name: string)
    requires '/' !in name
    ensures FinalComponent(dir + "/" + name) == name
    ensures FinalComponent(name) == name
  {
    FinalComponentAfterSlash(dir + "/", name);
    FinalComponentAfterSlash([], name);
    assert [] + name == name;
  }

  /**
   * The debounce rule documented for `shouldSendFile`: send unless the file
   * was uploaded within the last two seconds (no entry: send).
   */
  predicate ShouldSendFile(recentUploads: map<string, int>, filename: string, now: int)
  {
    filename !in recentUploads || now - recentUploads[filename] > DebounceWindowMs
  }

  /** The first upload of a file is never suppressed. */
  lemma FirstUploadNeverSuppressed(recentUploads: map<string, int>, filename: string, now: int)
    requires filename !in recentUploads
    ensures ShouldSendFile(recentUploads, filename, now)
  {
  }

  /**
   * After an upload recorded at `t`, the same file is suppressed up to and
   * including `t + 2000` ms and sent again afterwards; other files are unaffected.
   */
  lemma DebounceAfterRecord(recentUploads: map<string, int>, filename: string, t: int, now: int, other: string)
    requires other != filename
    ensures t <= now <= t + DebounceWindowMs ==> !ShouldSendFile(recentUploads[filename := t], filename, now)
    ensures now > t + DebounceWindowMs ==> ShouldSendFile(recentUploads[filename := t], filename, now)
    ensures ShouldSendFile(recentUploads[filename := t], other, now) == ShouldSendFile(recentUploads, other, now)
  {
  }

  class RestApiMngr {
    const serverUrl: string
    /** The pending tasks of the queue thread, oldest first. */
    var queue: seq<Task>
    /** The last upload time of each file, in milliseconds of a monotonic clock. */
    var recentUploads: map<string, int>

    constructor (serverUrl: string)
      ensures this.serverUrl == serverUrl && queue == [] && recentUploads == map[]
    {
      this.serverUrl := serverUrl;
      queue := [];
      recentUploads := map[];
    }

    /**
     * `update`: appends at most one task to the tail of the queue and
     * performs no request; earlier tasks and the upload table are untouched.
     */
    method Update(ev: Option<FileEvent>)
      modifies this`queue
      ensures queue == old(queue) + Enqueued([ev])
      ensures recentUploads == old(recentUploads)
    {
      assert [ev][..0] == [];
      if ev.None? {
        return;
      }
      var e := ev.value;
      var filename := e.filename;
      if filename == [] {
        return;
      }
      match e.eventType
      case Created => HandleFileCreation(filename);
      case Modified => HandleFileModification(filename);
      case Deleted => HandleFileDeletion(filename);
      case AttribChanged => HandleFileModification(filename);
    }

    method HandleFileCreation(filename: string)
      modifies this`queue
      ensures queue == old(queue) + [Upload(filename)]
    {
      queue := queue + [Upload(filename)];
    }

    method HandleFileModification(filename: string)
      modifies this`queue
      ensures queue == old(queue) + [Upload(filename)]
    {
      queue := queue + [Upload(filename)];
    }

    method HandleFileDeletion(filename: string)
      modifies this`queue
      ensures queue == old(queue) + [Delete(filename)]
    {
      queue := queue + [Delete(filename)];
    }

    /**
     * `sendFile`: no request when curl cannot be initialised or the local
     * file cannot be opened; otherwise a PUT to `serverUrl + "/upload"`,
     * and true iff the transfer reported CURLE_OK.
     */
    method SendFile(localFilePath: string, curlInitOk: bool, fileOpens: bool, performOk: bool)
      returns (ok: bool, request: Option<HttpRequest>)
      ensures request.Some? <==> curlInitOk && fileOpens
      ensures request.Some? ==> request.value == HttpRequest(Put, serverUrl + "/upload")
      ensures ok <==> request.Some? && performOk
    {
      if !curlInitOk {
        return false, None;
      }
      if !fileOpens {
        return false, None;
      }
      request := Some(HttpRequest(Put, serverUrl + "/upload"));
      ok := performOk;
    }

    /**
     * `deleteFile`: a DELETE to `serverUrl + "/file/"` followed by the final
     * path component of the filename; true iff it reported CURLE_OK.
     */
    method DeleteFile(filename: string, curlInitOk: bool, performOk: bool)
      returns (ok: bool, request: Option<HttpRequest>)
      ensures request.Some? <==> curlInitOk
      ensures request.Some? ==> request.value == HttpRequest(DeleteVerb, serverUrl + "/file/" + FinalComponent(filename))
      ensures ok <==> curlInitOk && performOk
    {
      if !curlInitOk {
        return false, None;
      }
      var url := serverUrl + "/file/" + FinalComponent(filename);
      request := Some(HttpRequest(DeleteVerb, url));
      ok := performOk;
    }

    /** What the queue thread does with one task: the lambda's call; its result is discarded. */
    method RunTask(task: Task, curlInitOk: bool, fileOpens: bool, performOk: bool)
      returns (request: Option<HttpRequest>)
      ensures task.Upload? ==> request == (if curlInitOk && fileOpens then Some(HttpRequest(Put, serverUrl + "/upload")) else None)
      ensures task.Delete? ==>
                request == (if curlInitOk then Some(HttpRequest(DeleteVerb, serverUrl + "/file/" + FinalComponent(task.filename))) else None)
    {
      match task
      case Upload(f) =>
        var _, r := SendFile(f, curlInitOk, fileOpens, performOk);
        request := r;
      case Delete(f) =>
        var _, r := DeleteFile(f, curlInitOk, performOk);
        request := r;
    }

    /** Records an upload of `filename` at `now`: one entry per file, holding the latest time. */
    method RecordUpload(filename: string, now: int)
      modifies this`recentUploads
      ensures recentUploads == old(recentUploads)[filename := now]
      ensures recentUploads.Keys == old(recentUploads).Keys + {filename}
    {
      recentUploads := recentUploads[filename := now];
    }
  }
}
