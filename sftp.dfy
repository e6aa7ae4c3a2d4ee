/**
 * The SFTP sink (`sftpMngr`): two nullable libssh handles driven through
 * connect / initialise / disconnect, the chunked upload loop of `sendFile`,
 * and the routing of observer notifications. Every libssh call is represented
 * by the outcome it returns; a handle is a number standing for a non-null pointer.
 */
module Sftp {
  import opened Basics
  import opened FileEvents

  /** The size of the transfer buffer of `sendFile`. */
  const ChunkSize: nat := 4096

  /** The source's remote directory prefix for uploads. */
  const RemoteDir: string := "/remote/path/"

  /** The two session handles; `None` is a null pointer. */
  datatype Sessions = Sessions(ssh: Option<nat>, sftp: Option<nat>)

  /** An SFTP session is only ever held on top of an SSH session. */
  predicate Coherent(s: Sessions)
  {
    s.sftp.Some? ==> s.ssh.Some?
  }

  /**
   * What libssh answers during one `connect`: the handle `ssh_new` returns,
   * whether `ssh_connect` and password authentication succeed, the handle
   * `sftp_new` returns and whether `sftp_init` succeeds.
   */
  datatype LibSsh = LibSsh(sshNew: Option<nat>, connectOk: bool, authOk: bool, sftpNew: Option<nat>, sftpInitOk: bool)

  /** The SSH half of `connect` succeeds: a session was created, connected and authenticated. */
  predicate SshStageSucceeds(lib: LibSsh)
  {
    lib.sshNew.Some? && lib.connectOk && lib.authOk
  }

  /** The SFTP half succeeds: a session was created and initialised. */
  predicate SftpStageSucceeds(lib: LibSsh)
  {
    lib.sftpNew.Some? && lib.sftpInitOk
  }

  /** The boolean a call returns together with the handles it leaves behind. */
  datatype Step = Step(ok: bool, after: Sessions)

  /** `initializeSFTP`, as a transition of the handles. */
  function InitializeSftpStep(s: Sessions, lib: LibSsh): Step
  {
    if s.ssh.None? then Step(false, s)
    else if lib.sftpNew.None? then Step(false, s.(sftp := None))
    else if !lib.sftpInitOk then Step(false, s.(sftp := None))
    else Step(true, s.(sftp := lib.sftpNew))
  }

  /** `connect`, as written: it starts from whatever handles are held and does not release them first. */
  function ConnectStep(s: Sessions, lib: LibSsh): Step
  {
    if lib.sshNew.None? then Step(false, s.(ssh := None))
    else if !lib.connectOk then Step(false, s.(ssh := None))
    else if !lib.authOk then Step(false, s.(ssh := None))
    else InitializeSftpStep(s.(ssh := lib.sshNew), lib)
  }

  /** `disconnect`: frees what is held and nulls both handles. */
  function DisconnectStep(s: Sessions): (r: Sessions)
    ensures r.ssh.None? && r.sftp.None? && Coherent(r)
  {
    s.(sftp := None).(ssh := None)
  }

  /** `disconnect` is idempotent. */
  lemma DisconnectIdempotent(s: Sessions)
    ensures DisconnectStep(DisconnectStep(s)) == DisconnectStep(s)
  {
  }

  /** `initializeSFTP` preserves the invariant; it succeeds iff an SSH session is held and both SFTP calls succeed. */
  lemma InitializeSftpSpec(s: Sessions, lib: LibSsh)
    requires Coherent(s)
    ensures Coherent(InitializeSftpStep(s, lib).after)
    ensures InitializeSftpStep(s, lib).ok <==> s.ssh.Some? && SftpStageSucceeds(lib)
    ensures InitializeSftpStep(s, lib).after.ssh == s.ssh
    ensures s.ssh.Some? ==> (InitializeSftpStep(s, lib).ok <==> InitializeSftpStep(s, lib).after.sftp.Some?)
  {
  }

  /**
   * The outcome of `connect` stage by stage: an SSH-stage failure returns
   * false with the SSH handle null; an SFTP-stage failure returns false with
   * the SFTP handle null and the new SSH session still held; otherwise both
   * new handles are held and the result is true.
   */
  lemma {:induction false} ConnectOutcomes(s: Sessions, lib: LibSsh)
    ensures !SshStageSucceeds(lib) ==> ConnectStep(s, lib) == Step(false, Sessions(None, s.sftp))
    ensures SshStageSucceeds(lib) && !SftpStageSucceeds(lib) ==>
              ConnectStep(s, lib) == Step(false, Sessions(lib.sshNew, None))
    ensures SshStageSucceeds(lib) && SftpStageSucceeds(lib) ==>
              ConnectStep(s, lib) == Step(true, Sessions(lib.sshNew, lib.sftpNew))
  {
    if SshStageSucceeds(lib) {
      InitializeSftpSpec(s.(ssh := lib.sshNew).(sftp := None), lib);
    }
  }

  /** From no SFTP session (a fresh or a disconnected manager), `connect` returns true iff the SFTP session ends up established. */
  lemma ConnectOkIffEstablished(s: Sessions, lib: LibSsh)
    requires s.sftp.None?
    ensures ConnectStep(s, lib).ok <==> ConnectStep(s, lib).after.sftp.Some?
    ensures Coherent(ConnectStep(s, lib).after)
  {
    ConnectOutcomes(s, lib);
  }

  /** `connect` keeps the invariant exactly when no SFTP session was held already or the SSH stage succeeds. */
  lemma ConnectCoherence(s: Sessions, lib: LibSsh)
    ensures Coherent(ConnectStep(s, lib).after) <==> s.sftp.None? || SshStageSucceeds(lib)
  {
    ConnectOutcomes(s, lib);
  }

  /** A second `connect` whose SSH stage fails leaves an SFTP handle over a null SSH handle. */
  lemma ReconnectBreaksCoherence()
    ensures var connected := ConnectStep(Sessions(None, None), LibSsh(Some(1), true, true, Some(2), true));
            connected == Step(true, Sessions(Some(1), Some(2)))
            && !Coherent(ConnectStep(connected.after, LibSsh(None, true, true, Some(3), true)).after)
  {
    ConnectOutcomes(Sessions(None, None), LibSsh(Some(1), true, true, Some(2), true));
    ConnectOutcomes(Sessions(Some(1), Some(2)), LibSsh(None, true, true, Some(3), true));
  }

  /** `connect` as evidently intended: release any held session first, then connect. */
  function ConnectFresh(s: Sessions, lib: LibSsh): Step
  {
    ConnectStep(DisconnectStep(s), lib)
  }

  /** The intended `connect` keeps the invariant from every state and returns true iff the SFTP session is established. */
  lemma ConnectFreshSpec(s: Sessions, lib: LibSsh)
    ensures Coherent(ConnectFresh(s, lib).after)
    ensures ConnectFresh(s, lib).ok <==> ConnectFresh(s, lib).after.sftp.Some?
    ensures ConnectFresh(s, lib).ok <==> SshStageSucceeds(lib) && SftpStageSucceeds(lib)
  {
    ConnectOkIffEstablished(DisconnectStep(s), lib);
    ConnectOutcomes(DisconnectStep(s), lib);
  }

  /** `data` cut into consecutive buffers, as successive `read`s of 4096 bytes deliver it. */
  function Chunks(data: seq<byte>): seq<seq<byte>>
    decreases |data|
  {
    if data == [] then []
    else
      var n := Min(ChunkSize, |data|);
      [data[..n]] + Chunks(data[n..])
  }

  /** Concatenation of a sequence of buffers. */
  function Flatten(chunks: seq<seq<byte>>): seq<byte>
  {
    if chunks == [] then [] else chunks[0] + Flatten(chunks[1..])
  }

  /** The chunks are the file in order: nothing lost, duplicated or reordered. */
  lemma {:induction false} ChunksFlatten(data: seq<byte>)
    ensures Flatten(Chunks(data)) == data
    decreases |data|
  {
    if data != [] {
      var n := Min(ChunkSize, |data|);
      ChunksFlatten(data[n..]);
      assert ([data[..n]] + Chunks(data[n..]))[1..] == Chunks(data[n..]);
      assert data[..n] + data[n..] == data;
    }
  }

  /** Every chunk holds 1 to 4096 bytes, and every chunk but the last exactly 4096. */
  lemma {:induction false} ChunkSizes(data: seq<byte>)
    ensures forall i :: 0 <= i < |Chunks(data)| ==> 0 < |Chunks(data)[i]| <= ChunkSize
    ensures forall i :: 0 <= i < |Chunks(data)| - 1 ==> |Chunks(data)[i]| == ChunkSize
    ensures |Chunks(data)| == (|data| + ChunkSize - 1) / ChunkSize
    decreases |data|
  {
    if data != [] {
      var n := Min(ChunkSize, |data|);
      ChunkSizes(data[n..]);
      var cs := Chunks(data);
      assert cs == [data[..n]] + Chunks(data[n..]);
      forall i | 0 <= i < |cs| ensures 0 < |cs[i]| <= ChunkSize {
        if i > 0 {
          assert cs[i] == Chunks(data[n..])[i - 1];
        }
      }
      forall i | 0 <= i < |cs| - 1 ensures |cs[i]| == ChunkSize {
        if i > 0 {
          assert cs[i] == Chunks(data[n..])[i - 1];
        }
      }
    }
  }

  /** The first `k` of `chunks` were written in full: `sftp_write` returned their sizes, writes being numbered from `base`. */
  predicate WrittenInFull(chunks: seq<seq<byte>>, writeReturns: nat -> int, base: nat, k: int)
  {
    forall i :: 0 <= i < k && i < |chunks| ==> writeReturns(base + i) == |chunks[i]|
  }

  /** The result of a transfer: whether it succeeded, and the buffers handed to `sftp_write`, in order. */
  datatype Sent = Sent(ok: bool, writes: seq<seq<byte>>)

  /** `s` preceded by the writes `prefix`. */
  function After(prefix: seq<seq<byte>>, s: Sent): Sent
  {
    Sent(s.ok, prefix + s.writes)
  }

  /**
   * The transfer loop of `sendFile` over the bytes `data` still unread,
   * `writeReturns(k)` being what the k-th `sftp_write` returns: read up to
   * 4096 bytes, write them, and stop at end of file or after a write whose
   * count differs from the bytes read.
   */
  function Send(data: seq<byte>, writeReturns: nat -> int, k: nat): Sent
    decreases |data|
  {
    if data == [] then Sent(true, [])
    else
      var n := Min(ChunkSize, |data|);
      if writeReturns(k) != n then Sent(false, [data[..n]])
      else After([data[..n]], Send(data[n..], writeReturns, k + 1))
  }

  /** One unfolding of `Send` on a non-empty remainder. */
  lemma SendUnfold(data: seq<byte>, writeReturns: nat -> int, k: nat)
    requires data != []
    ensures var n := Min(ChunkSize, |data|);
            Send(data, writeReturns, k)
            == if writeReturns(k) != n then Sent(false, [data[..n]])
               else Sent(Send(data[n..], writeReturns, k + 1).ok, [data[..n]] + Send(data[n..], writeReturns, k + 1).writes)
  {
  }

  /** The writes are the file's chunks, in order, from the first: no chunk is skipped, reordered or split. */
  lemma {:induction false} SendWritesChunks(data: seq<byte>, writeReturns: nat -> int, k: nat)
    ensures var w := Send(data, writeReturns, k).writes;
            |w| <= |Chunks(data)| && w == Chunks(data)[..|w|]
    decreases |data|
  {
    if data != [] {
      var n := Min(ChunkSize, |data|);
      var cs := Chunks(data);
      assert cs == [data[..n]] + Chunks(data[n..]);
      SendUnfold(data, writeReturns, k);
      if writeReturns(k) == n {
        SendWritesChunks(data[n..], writeReturns, k + 1);
        var rw := Send(data[n..], writeReturns, k + 1).writes;
        assert rw == Chunks(data[n..])[..|rw|];
        assert [data[..n]] + rw == ([data[..n]] + Chunks(data[n..]))[..1 + |rw|];
      }
    }
  }

  /** Every write but the last returned its buffer's size. */
  lemma {:induction false} SendWritesFullUntilLast(data: seq<byte>, writeReturns: nat -> int, k: nat)
    ensures var r := Send(data, writeReturns, k);
            WrittenInFull(r.writes, writeReturns, k, |r.writes| - 1)
    decreases |data|
  {
    if data != [] {
      var n := Min(ChunkSize, |data|);
      SendUnfold(data, writeReturns, k);
      if writeReturns(k) == n {
        SendWritesFullUntilLast(data[n..], writeReturns, k + 1);
        var rest := Send(data[n..], writeReturns, k + 1);
        if rest.writes != [] {
          WrittenInFullCons(data[..n], rest.writes, writeReturns, k, |rest.writes| - 1);
        }
      }
    }
  }

  /** A failed transfer ends with a short write. */
  lemma {:induction false} SendFailsOnShortWrite(data: seq<byte>, writeReturns: nat -> int, k: nat)
    ensures var r := Send(data, writeReturns, k);
            !r.ok ==> r.writes != [] && writeReturns(k + |r.writes| - 1) != |r.writes[|r.writes| - 1]|
    decreases |data|
  {
    if data != [] {
      var n := Min(ChunkSize, |data|);
      SendUnfold(data, writeReturns, k);
      if writeReturns(k) == n {
        SendFailsOnShortWrite(data[n..], writeReturns, k + 1);
        var rest := Send(data[n..], writeReturns, k + 1);
        var w := [data[..n]] + rest.writes;
        if rest.writes != [] {
          assert w[|w| - 1] == rest.writes[|rest.writes| - 1];
        }
      }
    }
  }

  /** The transfer succeeds iff every chunk of the file was written, each in full. */
  lemma {:induction false} SendOkIff(data: seq<byte>, writeReturns: nat -> int, k: nat)
    ensures var r := Send(data, writeReturns, k);
            r.ok <==> |r.writes| == |Chunks(data)| && WrittenInFull(r.writes, writeReturns, k, |r.writes|)
    decreases |data|
  {
    if data != [] {
      var n := Min(ChunkSize, |data|);
      assert |Chunks(data)| == 1 + |Chunks(data[n..])|;
      SendUnfold(data, writeReturns, k);
      if writeReturns(k) != n {
        var w := [data[..n]];
        assert !WrittenInFull(w, writeReturns, k, 1) by {
          assert writeReturns(k + 0) != |w[0]|;
        }
      } else {
        SendOkIff(data[n..], writeReturns, k + 1);
        var rest := Send(data[n..], writeReturns, k + 1);
        WrittenInFullCons(data[..n], rest.writes, writeReturns, k, |rest.writes|);
      }
    }
  }

  /** Writing a chunk in full and then the next ones in full is writing them all in full. */
  lemma WrittenInFullCons(c: seq<byte>, ws: seq<seq<byte>>, writeReturns: nat -> int, k: nat, m: int)
    requires m >= 0
    ensures WrittenInFull([c] + ws, writeReturns, k, m + 1)
            <==> writeReturns(k) == |c| && WrittenInFull(ws, writeReturns, k + 1, m)
  {
    var w := [c] + ws;
    if WrittenInFull(w, writeReturns, k, m + 1) {
      assert writeReturns(k + 0) == |w[0]|;
      forall i | 0 <= i < m && i < |ws| ensures writeReturns(k + 1 + i) == |ws[i]| {
        assert w[i + 1] == ws[i];
        assert writeReturns(k + (i + 1)) == |w[i + 1]|;
      }
    }
    if writeReturns(k) == |c| && WrittenInFull(ws, writeReturns, k + 1, m) {
      forall i | 0 <= i < m + 1 && i < |w| ensures writeReturns(k + i) == |w[i]| {
        if i > 0 {
          assert w[i] == ws[i - 1];
          assert writeReturns(k + 1 + (i - 1)) == |ws[i - 1]|;
        }
      }
    }
  }

  /** Writes already made, followed by the rest of a transfer, regroup. */
  lemma AfterAfter(a: seq<seq<byte>>, b: seq<seq<byte>>, s: Sent)
    ensures After(a, After(b, s)) == After(a + b, s)
  {
    assert a + (b + s.writes) == a + b + s.writes;
  }

  /**
   * The transfer loop of `sendFile` on an open local file holding `content`;
   * `unread` is the part of the stream not yet read.
   */
  method WriteChunks(content: seq<byte>, writeReturns: nat -> int) returns (ok: bool, attempted: seq<seq<byte>>)
    ensures Sent(ok, attempted) == Send(content, writeReturns, 0)
  {
    ok := true;
    attempted := [];
    var unread := content;
    var atEnd := false;
    assert [] + Send(content, writeReturns, 0).writes == Send(content, writeReturns, 0).writes;
    while !atEnd
      invariant atEnd ==> unread == []
      invariant Send(content, writeReturns, 0) == After(attempted, Send(unread, writeReturns, |attempted|))
      decreases |unread|, if atEnd then 0 else 1
    {
      var n := Min(ChunkSize, |unread|);
      var chunk := unread[..n];
      atEnd := n < ChunkSize;
      if n > 0 {
        SendUnfold(unread, writeReturns, |attempted|);
        if writeReturns(|attempted|) != n {
          attempted := attempted + [chunk];
          ok := false;
          return;
        }
        AfterAfter(attempted, [chunk], Send(unread[n..], writeReturns, |attempted| + 1));
        attempted := attempted + [chunk];
        unread := unread[n..];
      }
    }
    assert attempted + [] == attempted;
  }

  /** The remote target of an upload. */
  datatype Transfer = Transfer(localPath: string, remotePath: string)

  /** The routing of `update` / `handleFileCreation`: only a CREATED event with a non-empty name uploads. */
  function TransferFor(ev: Option<FileEvent>): (r: Option<Transfer>)
    ensures r.Some? <==> ev.Some? && ev.value.filename != [] && ev.value.eventType == Created
    ensures r.Some? ==> r.value.localPath == ev.value.filename
    ensures r.Some? ==> r.value.remotePath == RemoteDir + ev.value.filename
  {
    match ev
    case None => None
    case Some(e) =>
      if e.filename == [] then None
      else
        match e.eventType
        case Created => Some(Transfer(e.filename, RemoteDir + e.filename))
        case Modified => None
        case Deleted => None
        case AttribChanged => None
  }

  class SftpMngr {
    const serverAddress: string
    const username: string
    const password: string
    const port: int
    var sshSession: Option<nat>
    var sftpSession: Option<nat>

    function State(): Sessions
      reads this
    {
      Sessions(sshSession, sftpSession)
    }

    /** Both handles start null. */
    constructor (serverAddress: string, username: string, password: string, port: int)
      ensures this.serverAddress == serverAddress && this.username == username
      ensures this.password == password && this.port == port
      ensures State() == Sessions(None, None)
    {
      this.serverAddress := serverAddress;
      this.username := username;
      this.password := password;
      this.port := port;
      sshSession := None;
      sftpSession := None;
    }

    method Connect(lib: LibSsh) returns (ok: bool)
      modifies this`sshSession, this`sftpSession
      ensures Step(ok, State()) == ConnectStep(old(State()), lib)
    {
      sshSession := lib.sshNew;
      if sshSession.None? {
        return false;
      }
      if !lib.connectOk {
        sshSession := None;
        return false;
      }
      if !lib.authOk {
        sshSession := None;
        return false;
      }
      ok := InitializeSftp(lib);
    }

    method InitializeSftp(lib: LibSsh) returns (ok: bool)
      modifies this`sftpSession
      ensures Step(ok, State()) == InitializeSftpStep(old(State()), lib)
    {
      if sshSession.None? {
        return false;
      }
      sftpSession := lib.sftpNew;
      if sftpSession.None? {
        return false;
      }
      if !lib.sftpInitOk {
        sftpSession := None;
        return false;
      }
      ok := true;
    }

    method Disconnect()
      modifies this`sshSession, this`sftpSession
      ensures State() == DisconnectStep(old(State()))
    {
      if sftpSession.Some? {
        sftpSession := None;
      }
      if sshSession.Some? {
        sshSession := None;
      }
    }

    /** The destructor disconnects. */
    method Destroy()
      modifies this`sshSession, this`sftpSession
      ensures State() == Sessions(None, None)
    {
      Disconnect();
    }

    /**
     * `sendFile`: nothing is written when no SFTP session is held, the local
     * file does not open or the remote file cannot be created; otherwise the
     * transfer loop runs and its result is returned.
     */
    method SendFile(localFilePath: string, remoteFilePath: string, localOpens: bool, content: seq<byte>,
                    remoteOpens: bool, writeReturns: nat -> int)
      returns (ok: bool, attempted: seq<seq<byte>>)
      ensures sftpSession.None? || !localOpens || !remoteOpens ==> !ok && attempted == []
      ensures |attempted| <= |Chunks(content)| && attempted == Chunks(content)[..|attempted|]
      ensures WrittenInFull(attempted, writeReturns, 0, |attempted| - 1)
      ensures !ok && attempted != [] ==> writeReturns(|attempted| - 1) != |attempted[|attempted| - 1]|
      ensures ok <==> sftpSession.Some? && localOpens && remoteOpens && attempted == Chunks(content)
                      && WrittenInFull(attempted, writeReturns, 0, |attempted|)
    {
      if sftpSession.None? || !localOpens || !remoteOpens {
        return false, [];
      }
      ok, attempted := WriteChunks(content, writeReturns);
      SendWritesChunks(content, writeReturns, 0);
      SendWritesFullUntilLast(content, writeReturns, 0);
      SendFailsOnShortWrite(content, writeReturns, 0);
      SendOkIff(content, writeReturns, 0);
    }

    /** `update` followed by `handleFileCreation`: a CREATED event uploads the file under the remote directory. */
    method Update(ev: Option<FileEvent>, localOpens: bool, content: seq<byte>, remoteOpens: bool, writeReturns: nat -> int)
      returns (transfer: Option<Transfer>, attempted: seq<seq<byte>>)
      ensures transfer == TransferFor(ev)
      ensures transfer.None? ==> attempted == []
      ensures |attempted| <= |Chunks(content)| && attempted == Chunks(content)[..|attempted|]
    {
      transfer := TransferFor(ev);
      attempted := [];
      if transfer.Some? {
        var _, a := SendFile(transfer.value.localPath, transfer.value.remotePath, localOpens, content, remoteOpens, writeReturns);
        attempted := a;
      }
    }
  }
}
