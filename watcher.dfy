/**
 * The directory watcher (`filesMonitor`): the inotify descriptor state and
 * run flag, the filter list, the classification of one raw notification
 * into at most one event kind, and the walk over a buffer of raw records.
 * The system calls themselves are outcome parameters; what is handed to
 * `Subject::notify` is recorded, in order, in the field `notified`.
 */
module Watcher {
  import opened Basics
  import opened FileEvents
  import opened Filters

  // Mask bits of <sys/inotify.h> (Linux).
  const IN_MODIFY: bv32 := 0x0000_0002
  const IN_ATTRIB: bv32 := 0x0000_0004
  const IN_CREATE: bv32 := 0x0000_0100
  const IN_DELETE: bv32 := 0x0000_0200
  const IN_ISDIR: bv32 := 0x4000_0000

  /** `sizeof(struct inotify_event)`: the fields wd, mask, cookie and len, 4 bytes each; name follows. */
  const EventHeaderSize: nat := 16

  /**
   * One raw record of the inotify buffer. `name` is the name field of `len`
   * bytes as the kernel writes it, NUL-terminated and NUL-padded.
   */
  datatype RawEvent = RawEvent(wd: int, mask: bv32, cookie: bv32, len: nat, name: string)

  /** The file-system calls the watcher makes besides `inotify_init1` and `inotify_add_watch`. */
  datatype SysCall = InotifyRmWatch(fd: int, wd: int) | Close(fd: int)

  /** The error `filesMonitor`'s constructor throws. */
  datatype CtorError = InvalidArgument(message: string)

  /** The mask bit that selects each kind. */
  function BitOf(k: EventType): bv32
  {
    match k
    case Created => IN_CREATE
    case Deleted => IN_DELETE
    case Modified => IN_MODIFY
    case AttribChanged => IN_ATTRIB
  }

  /** Precedence of the kinds: CREATE, then DELETE, then MODIFY, then ATTRIB. */
  function Rank(k: EventType): nat
  {
    match k
    case Created => 0
    case Deleted => 1
    case Modified => 2
    case AttribChanged => 3
  }

  /** `mask` carries the bit of kind `k`. */
  predicate HasBit(mask: bv32, k: EventType)
  {
    mask & BitOf(k) != 0
  }

  /**
   * The kind `processEvent` assigns to a mask: the highest-precedence watched
   * bit that is set, or none when no watched bit is set.
   */
  function Classify(mask: bv32): Option<EventType>
  {
    if mask & IN_CREATE != 0 then Some(Created)
    else if mask & IN_DELETE != 0 then Some(Deleted)
    else if mask & IN_MODIFY != 0 then Some(Modified)
    else if mask & IN_ATTRIB != 0 then Some(AttribChanged)
    else None
  }

  /**
   * Classification precedence: nothing when no watched bit is set; otherwise a kind
   * whose bit is set and every kind of higher precedence has its bit clear.
   */
  lemma ClassifySpec(mask: bv32)
    ensures Classify(mask).None? <==> forall k: EventType :: !HasBit(mask, k)
    ensures Classify(mask).Some? ==> HasBit(mask, Classify(mask).value)
    ensures Classify(mask).Some? ==>
              forall k: EventType :: Rank(k) < Rank(Classify(mask).value) ==> !HasBit(mask, k)
  {
    var c, d, m, a := HasBit(mask, Created), HasBit(mask, Deleted), HasBit(mask, Modified), HasBit(mask, AttribChanged);
    assert Classify(mask) == if c then Some(Created) else if d then Some(Deleted)
                             else if m then Some(Modified) else if a then Some(AttribChanged) else None;
    forall k: EventType
      ensures HasBit(mask, k) == match k case Created => c case Deleted => d case Modified => m case AttribChanged => a
    {
    }
  }

  /** Conversely, a kind whose bit is set while every higher-precedence bit is clear is the one chosen. */
  lemma ClassifyDetermined(mask: bv32, k: EventType)
    requires HasBit(mask, k)
    requires forall k': EventType :: Rank(k') < Rank(k) ==> !HasBit(mask, k')
    ensures Classify(mask) == Some(k)
  {
    ClassifySpec(mask);
  }

  /** Bits outside the four watched ones (IN_ISDIR among them) never change the kind. */
  lemma ClassifyIgnoresOtherBits(mask: bv32)
    ensures Classify(mask) == Classify(mask & (IN_CREATE | IN_DELETE | IN_MODIFY | IN_ATTRIB))
  {
  }

  /** A create that also carries a modify bit is a creation; a lone attribute change is an attribute change. */
  lemma ClassifyExamples()
    ensures Classify(IN_CREATE | IN_MODIFY) == Some(Created)
    ensures Classify(IN_DELETE | IN_ATTRIB) == Some(Deleted)
    ensures Classify(IN_ATTRIB | IN_ISDIR) == Some(AttribChanged)
    ensures Classify(0) == None
  {
  }

  /** `std::string(event->name)`: the characters before the first NUL. */
  function CString(s: string): (r: string)
    ensures |r| <= |s| && r == s[..|r|]
    ensures '\0' !in r
    ensures |r| < |s| ==> s[|r|] == '\0'
  {
    if s == [] || s[0] == '\0' then [] else [s[0]] + CString(s[1..])
  }

  /**
   * What `processEvent` does with one record: drop it, or notify the
   * observers. Only `payload` (the filename) is handed to them; `kind` is
   * computed and then discarded.
   */
  datatype Processed = Dropped | Notified(payload: string, kind: EventType)

  /** The decision `processEvent` takes for one record, given the current filter list. */
  function Process(filters: seq<string>, ev: RawEvent): Processed
  {
    if ev.len == 0 || ev.mask & IN_ISDIR != 0 then Dropped
    else
      var filename := CString(ev.name);
      if !Accepts(filters, filename) then Dropped
      else
        match Classify(ev.mask)
        case None => Dropped
        case Some(k) => Notified(filename, k)
  }

  /**
   * `processEvent` notifies nothing for a zero-length name, a directory
   * event, a name the filters reject or a mask without a watched bit; in
   * every other case it notifies exactly the NUL-terminated filename, with
   * the kind `Classify` picks.
   */
  lemma ProcessSpec(filters: seq<string>, ev: RawEvent)
    ensures Process(filters, ev).Notified? <==>
              ev.len != 0 && ev.mask & IN_ISDIR == 0 && Accepts(filters, CString(ev.name))
              && Classify(ev.mask).Some?
    ensures Process(filters, ev).Notified? ==>
              Process(filters, ev).payload == CString(ev.name)
              && Classify(ev.mask) == Some(Process(filters, ev).kind)
  {
  }

  /**
   * A record as the kernel writes it: a name field of exactly `len` bytes,
   * holding a NUL-terminated name when `len` is not zero.
   */
  predicate WellFormedRecord(ev: RawEvent)
  {
    |ev.name| == ev.len && (ev.len > 0 ==> '\0' in ev.name)
  }

  /** A buffer of `length` bytes filled exactly by `records`, back to back and each well formed. */
  predicate WellFormedBuffer(records: seq<RawEvent>, length: nat)
  {
    && (forall j :: 0 <= j < |records| ==> WellFormedRecord(records[j]))
    && length == OffsetOf(records, |records|)
  }

  /** The filename notified for a well-formed record lies inside its name field, before the terminating NUL. */
  lemma NotifiedNameInField(filters: seq<string>, ev: RawEvent)
    requires WellFormedRecord(ev)
    ensures Process(filters, ev).Notified? ==>
              |Process(filters, ev).payload| < ev.len && ev.name[|Process(filters, ev).payload|] == '\0'
              && Process(filters, ev).payload == ev.name[..|Process(filters, ev).payload|]
  {
    if ev.len > 0 {
      assert CString(ev.name) != ev.name;
    }
  }

  /** The values handed to `notify` for one decision: none or one. */
  function PayloadOf(p: Processed): seq<string>
  {
    if p.Notified? then [p.payload] else []
  }

  /** The values handed to `notify` for the first `n` records, in record order. */
  function Payloads(filters: seq<string>, rs: seq<RawEvent>, n: nat): seq<string>
    requires n <= |rs|
  {
    if n == 0 then [] else Payloads(filters, rs, n - 1) + PayloadOf(Process(filters, rs[n - 1]))
  }

  /** At most one notification per record, each of them the filename of a record that passed the filters. */
  lemma {:induction false} PayloadsAtMostOnePerRecord(filters: seq<string>, rs: seq<RawEvent>, n: nat)
    requires n <= |rs|
    ensures |Payloads(filters, rs, n)| <= n
    ensures forall x :: x in Payloads(filters, rs, n) ==> Accepts(filters, x)
  {
    if n > 0 {
      PayloadsAtMostOnePerRecord(filters, rs, n - 1);
      ProcessSpec(filters, rs[n - 1]);
    }
  }

  /** Byte offset of record `j` in the buffer: the sizes (header plus `len`) of the records before it. */
  function OffsetOf(rs: seq<RawEvent>, j: nat): nat
    requires j <= |rs|
  {
    if j == 0 then 0 else OffsetOf(rs, j - 1) + EventHeaderSize + rs[j - 1].len
  }

  /** The offsets of the first `n` records, in buffer order. */
  function OffsetsUpTo(rs: seq<RawEvent>, n: nat): (r: seq<nat>)
    requires n <= |rs|
    ensures |r| == n
  {
    if n == 0 then [] else OffsetsUpTo(rs, n - 1) + [OffsetOf(rs, n - 1)]
  }

  /**
   * The visited offsets are the record offsets (0, then each previous one
   * plus the header size plus the previous record's `len`), and all of them
   * lie below the end of the walk when the last one does.
   */
  lemma {:induction false} OffsetsUpToSpec(rs: seq<RawEvent>, n: nat, length: nat)
    requires n <= |rs|
    requires n > 0 ==> OffsetsUpTo(rs, n)[n - 1] < length
    ensures forall k :: 0 <= k < n ==> OffsetsUpTo(rs, n)[k] == OffsetOf(rs, k) < length
  {
    if n > 0 {
      var prefix := OffsetsUpTo(rs, n - 1);
      if n > 1 {
        OffsetsIncrease(rs, n - 2, n - 1);
      }
      OffsetsUpToSpec(rs, n - 1, length);
      assert OffsetsUpTo(rs, n) == prefix + [OffsetOf(rs, n - 1)];
    }
  }

  /** Offsets strictly increase, so the walk always advances. */
  lemma {:induction false} OffsetsIncrease(rs: seq<RawEvent>, i: nat, j: nat)
    requires i < j <= |rs|
    ensures OffsetOf(rs, i) + EventHeaderSize <= OffsetOf(rs, j)
  {
    if i < j - 1 {
      OffsetsIncrease(rs, i, j - 1);
    }
  }

  class FilesMonitor {
    const dirPath: string
    var runFlag: bool
    var inotifyFd: int
    var watchFd: int
    var filters: seq<string>
    /** Every value handed to `Subject::notify`, in order. */
    var notified: seq<string>
    /** The `inotify_rm_watch` and `close` calls made, in order. */
    var sysCalls: seq<SysCall>

    /** The descriptors are set and cleared together; a stopped watcher holds none; filters are distinct. */
    ghost predicate Valid()
      reads this
    {
      && dirPath != []
      && (inotifyFd == -1 <==> watchFd == -1)
      && (!runFlag ==> inotifyFd == -1)
      && NoDuplicates(filters)
    }

    /** The constructor once its argument check has passed. */
    constructor (dirPath: string)
      requires dirPath != []
      ensures Valid()
      ensures this.dirPath == dirPath && !runFlag && inotifyFd == -1 && watchFd == -1
      ensures filters == [] && notified == [] && sysCalls == []
    {
      this.dirPath := dirPath;
      runFlag := false;
      inotifyFd := -1;
      watchFd := -1;
      filters := [];
      notified := [];
      sysCalls := [];
    }

    /**
     * `setupInotify`, with the results of `inotify_init1` and
     * `inotify_add_watch` as parameters (-1 is failure). A failed watch
     * closes the fresh descriptor and resets it to -1.
     */
    method SetupInotify(initResult: int, watchResult: int) returns (ok: bool)
      modifies this`inotifyFd, this`watchFd, this`sysCalls
      ensures ok <==> initResult != -1 && watchResult != -1
      ensures initResult == -1 ==>
                inotifyFd == -1 && watchFd == old(watchFd) && sysCalls == old(sysCalls)
      ensures initResult != -1 && watchResult == -1 ==>
                inotifyFd == -1 && watchFd == -1 && sysCalls == old(sysCalls) + [Close(initResult)]
      ensures ok ==> inotifyFd == initResult && watchFd == watchResult && sysCalls == old(sysCalls)
    {
      inotifyFd := initResult;
      if inotifyFd == -1 {
        return false;
      }
      watchFd := watchResult;
      if watchFd == -1 {
        sysCalls := sysCalls + [Close(inotifyFd)];
        inotifyFd := -1;
        return false;
      }
      return true;
    }

    /** `cleanupInotify`: removes the watch and closes the descriptor if held; both end at -1. */
    method CleanupInotify()
      modifies this`inotifyFd, this`watchFd, this`sysCalls
      ensures inotifyFd == -1 && watchFd == -1
      ensures sysCalls == old(sysCalls)
                          + (if old(watchFd) != -1 then [InotifyRmWatch(old(inotifyFd), old(watchFd))] else [])
                          + (if old(inotifyFd) != -1 then [Close(old(inotifyFd))] else [])
      ensures old(inotifyFd) == -1 && old(watchFd) == -1 ==> sysCalls == old(sysCalls)
    {
      var calls := [];
      if watchFd != -1 {
        calls := calls + [InotifyRmWatch(inotifyFd, watchFd)];
        watchFd := -1;
      }
      if inotifyFd != -1 {
        calls := calls + [Close(inotifyFd)];
        inotifyFd := -1;
      }
      sysCalls := sysCalls + calls;
    }

    /**
     * `Start`: refuses without side effects while running; otherwise sets up
     * inotify and raises the run flag only if that succeeded. Starting the
     * thread itself is not modelled.
     */
    method Start(initResult: int, watchResult: int) returns (ok: bool)
      requires Valid()
      modifies this
      ensures Valid()
      ensures old(runFlag) ==> !ok && unchanged(this)
      ensures !old(runFlag) ==> (ok <==> initResult != -1 && watchResult != -1)
      ensures !old(runFlag) && !ok ==> !runFlag && inotifyFd == -1 && watchFd == -1
      ensures ok ==> runFlag && inotifyFd == initResult && watchFd == watchResult
      ensures !old(runFlag) ==>
                sysCalls == old(sysCalls) + (if initResult != -1 && watchResult == -1 then [Close(initResult)] else [])
      ensures filters == old(filters) && notified == old(notified)
    {
      if runFlag {
        return false;
      }
      ok := SetupInotify(initResult, watchResult);
      if !ok {
        return false;
      }
      runFlag := true;
    }

    /**
     * `Stop` as written: joins the thread (not modelled) and cleans up
     * inotify. Nothing in it clears `m_run_flag`.
     */
    method Stop()
      requires Valid()
      modifies this`inotifyFd, this`watchFd, this`sysCalls
      ensures Valid()
      ensures inotifyFd == -1 && watchFd == -1 && runFlag == old(runFlag)
      ensures sysCalls == old(sysCalls)
                          + (if old(watchFd) != -1 then [InotifyRmWatch(old(inotifyFd), old(watchFd))] else [])
                          + (if old(inotifyFd) != -1 then [Close(old(inotifyFd))] else [])
    {
      CleanupInotify();
    }

    /**
     * `Stop` as evidently intended: the run flag is lowered first, so that the
     * thread's loop can end before it is joined, then the same clean-up; `Start`
     * can then run again.
     */
    method StopClearingRunFlag()
      requires Valid()
      modifies this`runFlag, this`inotifyFd, this`watchFd, this`sysCalls
      ensures Valid()
      ensures inotifyFd == -1 && watchFd == -1 && !runFlag
      ensures sysCalls == old(sysCalls)
                          + (if old(watchFd) != -1 then [InotifyRmWatch(old(inotifyFd), old(watchFd))] else [])
                          + (if old(inotifyFd) != -1 then [Close(old(inotifyFd))] else [])
    {
      runFlag := false;
      CleanupInotify();
    }

    /** The destructor: `Stop`, then `cleanupInotify` once more, which then does nothing. */
    method Destroy()
      requires Valid()
      modifies this`inotifyFd, this`watchFd, this`sysCalls
      ensures Valid()
      ensures inotifyFd == -1 && watchFd == -1
      ensures sysCalls == old(sysCalls)
                          + (if old(watchFd) != -1 then [InotifyRmWatch(old(inotifyFd), old(watchFd))] else [])
                          + (if old(inotifyFd) != -1 then [Close(old(inotifyFd))] else [])
    {
      Stop();
      CleanupInotify();
    }

    /** `AddFilter`: appends the pattern unless it is already present. */
    method AddFilter(pattern: string)
      requires Valid()
      modifies this`filters
      ensures Valid()
      ensures filters == WithFilter(old(filters), pattern)
      ensures Count(filters, pattern) == 1
    {
      AddFilterExactlyOnce(filters, pattern);
      if pattern !in filters {
        filters := filters + [pattern];
      }
    }

    /** `RemoveFilter`: erases every occurrence of the pattern, keeping the order of the others. */
    method RemoveFilter(pattern: string)
      requires Valid()
      modifies this`filters
      ensures Valid()
      ensures filters == WithoutFilter(old(filters), pattern)
      ensures pattern !in filters
    {
      WithoutFilterNoDuplicates(filters, pattern);
      filters := WithoutFilter(filters, pattern);
    }

    /** `matchesFilter`: true iff there are no filters or one of them is a substring of the name. */
    method MatchesFilter(filename: string) returns (b: bool)
      ensures b <==> Accepts(filters, filename)
    {
      if |filters| == 0 {
        return true;
      }
      var i := 0;
      while i < |filters|
        invariant 0 <= i <= |filters|
        invariant forall j :: 0 <= j < i ==> !Occurs(filters[j], filename)
      {
        if Occurs(filters[i], filename) {
          return true;
        }
        i := i + 1;
      }
      return false;
    }

    /**
     * `processEvent`: notifies the filename, or nothing. `computed` is the
     * `FileEvent` the source assembles and never sends.
     */
    method ProcessEvent(ev: RawEvent) returns (computed: Option<FileEvent>)
      requires WellFormedRecord(ev)
      modifies this`notified
      ensures notified == old(notified) + PayloadOf(Process(filters, ev))
      ensures computed == match Process(filters, ev)
                          case Dropped => None
                          case Notified(name, k) => Some(FileEvent(name, k))
    {
      if ev.len == 0 || ev.mask & IN_ISDIR != 0 {
        return None;
      }
      var filename := CString(ev.name);
      var accepted := MatchesFilter(filename);
      if !accepted {
        return None;
      }
      if ev.mask & IN_CREATE != 0 {
        computed := Some(FileEvent(filename, Created));
        notified := notified + [filename];
      } else if ev.mask & IN_DELETE != 0 {
        computed := Some(FileEvent(filename, Deleted));
        notified := notified + [filename];
      } else if ev.mask & IN_MODIFY != 0 {
        computed := Some(FileEvent(filename, Modified));
        notified := notified + [filename];
      } else if ev.mask & IN_ATTRIB != 0 {
        computed := Some(FileEvent(filename, AttribChanged));
        notified := notified + [filename];
      } else {
        computed := None;
      }
    }

    /**
     * The walk over one buffer returned by `read` in `thread()`: `length`
     * bytes holding `records` back to back. Each record is processed at its
     * offset, the next offset being this one plus the header size plus `len`,
     * until the offset reaches `length`. `offsets` are the offsets visited:
     * every record is visited once, in buffer order, each below `length`.
     */
    method ProcessBuffer(records: seq<RawEvent>, length: nat) returns (offsets: seq<nat>)
      requires WellFormedBuffer(records, length)
      modifies this`notified
      ensures offsets == OffsetsUpTo(records, |records|)
      ensures |offsets| > 0 ==> offsets[|offsets| - 1] < length
      ensures notified == old(notified) + Payloads(filters, records, |records|)
    {
      var i: nat := 0;
      var j: nat := 0;
      offsets := [];
      while i < length
        invariant j <= |records| && i == OffsetOf(records, j)
        invariant offsets == OffsetsUpTo(records, j)
        invariant j > 0 ==> offsets[j - 1] < length
        invariant notified == old(notified) + Payloads(filters, records, j)
        decreases length - i
      {
        var ev := records[j];
        assert OffsetsUpTo(records, j + 1) == offsets + [i];
        assert OffsetOf(records, j + 1) == i + EventHeaderSize + ev.len;
        assert Payloads(filters, records, j + 1) == Payloads(filters, records, j) + PayloadOf(Process(filters, ev));
        offsets := offsets + [i];
        var _ := ProcessEvent(ev);
        i := i + EventHeaderSize + ev.len;
        j := j + 1;
      }
      assert j == |records| by {
        if j < |records| {
          OffsetsIncrease(records, j, |records|);
        }
      }
    }
  }

  /** The constructor with its argument check: an empty directory path throws `invalid_argument`. */
  method NewFilesMonitor(dirPath: string) returns (r: Result<FilesMonitor, CtorError>)
    ensures r.Err? <==> dirPath == []
    ensures r.Ok? ==> fresh(r.value) && r.value.Valid() && r.value.dirPath == dirPath
                      && !r.value.runFlag && r.value.inotifyFd == -1 && r.value.watchFd == -1
                      && r.value.filters == [] && r.value.notified == []
  {
    if dirPath == [] {
      return Err(InvalidArgument("Directory path cannot be empty"));
    }
    var m := new FilesMonitor(dirPath);
    return Ok(m);
  }

  /**
   * As written, a watcher that was started and stopped can never be started
   * again. This assumes `Stop` returns; the join it makes is not modelled.
   */
  method RestartAfterStop() returns (first: bool, second: bool)
    ensures first && !second
  {
    var m := new FilesMonitor("/watched");
    first := m.Start(3, 1);
    m.Stop();
    second := m.Start(4, 1);
  }

  /** With the run flag lowered on stop, the same sequence starts the watcher twice. */
  method RestartAfterCorrectedStop() returns (first: bool, second: bool)
    ensures first && second
  {
    var m := new FilesMonitor("/watched");
    first := m.Start(3, 1);
    m.StopClearingRunFlag();
    second := m.Start(4, 1);
  }
}
