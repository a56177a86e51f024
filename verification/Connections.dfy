/** Whole connections, from the client's first byte to the last byte of the answer. */
module Connections {
  import opened ProcessResults
  import opened RingBuffer
  import opened RequestModel
  import opened RequestRuns
  import ProxyModel
  import ProxyRuns
  import FileModel
  import FileRuns

  /** Calls that a proxied connection can survive. */
  function ProxiedCalls(response: nat): nat {
    (2 * SIZE + 3 + 2 * response) * (MAX_RETRIES + 2) + 2 * (MAX_RETRIES + 1)
  }

  /** A whole proxied connection, read, handed over and forwarded by either executor. At every point the
      upstream has got a prefix of the bytes the client sent, and the client a prefix of the upstream's
      stream; a connection removed as finished has passed on all of both; and the whole takes a bounded
      number of calls. */
  lemma ProxiedConnection(g: Config, channel: Channel, ring: Ring, answers: seq<Answer>,
                          k: ProxyModel.Kind, connected: bool, os: ProxyModel.Os,
                          upstream: string, calls: seq<ProxyRuns.Call>, c: Reading)
    requires Unwrapped(ring, "") && PossibleRun(g, channel, Start(ring), answers)
    requires Live(g, channel, Start(ring), answers).HandOver? && c == Live(g, channel, Start(ring), answers).state
    requires ProxyModel.Up(c.ring, ProxyModel.ForRead, c.retry, connected, os).Started?
    requires ProxyRuns.PossibleRun(k, upstream,
                                   ProxyModel.Up(c.ring, ProxyModel.ForRead, c.retry, connected, os).conn, calls)
    ensures var request := Bytes(answers);
            match ProxyRuns.Live(k, upstream,
                                 ProxyModel.Up(c.ring, ProxyModel.ForRead, c.retry, connected, os).conn, calls)
            case Alive(c') => c'.toUpstream <= request && c'.toClient <= upstream
            case Removed(RemoveOk, c') => c'.toUpstream == request && c'.toClient == upstream
            case Removed(_, _) => true
    ensures |answers| + |calls| <= ProxiedCalls(|upstream|)
  {
    hide Live, Route, UrlOf, PossibleRun, ProxyRuns.PossibleRun, ProxyRuns.Live, ProxyRuns.Inv, Ring.Contents,
         ProxyRuns.CallsLeft, Ring.Exposed, Ring.Wrapped, Ring.ReadRoom, Ring.WriteRoom, Bytes, UrlPrefix.Selects;
    StartInv(ring);
    RunKeepsInv(g, channel, Start(ring), [], answers);
    ReadingIsBounded(g, channel, Start(ring), [], answers);
    var request := Bytes(answers);
    assert "" + request == request;
    UnwrappedRing(c.ring, request);
    HandOverIsNotEmpty(g, channel, Start(ring), [], answers);
    var conn := ProxyModel.Up(c.ring, ProxyModel.ForRead, c.retry, connected, os).conn;
    ProxyRuns.UpInv(k, c.ring, c.retry, ProxyModel.ForRead, connected, os, upstream);
    ProxyRuns.RunsConserveBytes(k, request, upstream, conn, calls);
    ProxyRuns.RunsAreBounded(k, request, upstream, conn, calls);
    if ProxyRuns.Live(k, upstream, conn, calls).Alive? {
      PrefixesOnly(k, request, upstream, ProxyRuns.Live(k, upstream, conn, calls).conn);
    }
    StartingWork(c.ring, connected, os, request, upstream);
  }

  lemma PrefixesOnly(k: ProxyModel.Kind, request: string, upstream: string, c: ProxyModel.Conn)
    requires ProxyRuns.Inv(k, request, upstream, c)
    ensures c.toUpstream <= request && c.toClient <= upstream
  {
  }

  lemma StartingWork(ring: Ring, connected: bool, os: ProxyModel.Os, request: string, upstream: string)
    requires Unwrapped(ring, request) && |request| <= SIZE
    requires ProxyModel.Up(ring, ProxyModel.ForRead, 0, connected, os).Started?
    ensures ProxyRuns.CallsLeft(upstream, ProxyModel.Up(ring, ProxyModel.ForRead, 0, connected, os).conn)
         <= (SIZE + 3 + 2 * |upstream|) * (MAX_RETRIES + 2) + (MAX_RETRIES + 1)
  {
  }

  /** Calls that a connection which is served a file over a clear socket can survive. */
  function FileCalls(header: nat, file: nat): nat {
    (SIZE + 2 + header + 3 * file) * (MAX_RETRIES + 2) + 2 * (MAX_RETRIES + 1)
  }

  /** The bytes a connection is answered with: a header, and the file behind it if it could be opened and was
      modified. */
  predicate HasBody(open: FileModel.OpenAnswer) {
    open.Opened? && !open.unmodified
  }

  /** A whole connection that is answered by a file executor, whatever it finds when it opens the file. The client
      gets the header and then the file, if one is to be sent, and never anything that the request left in the buffer;
      a connection removed as finished got all of it; and over a clear socket the whole takes a bounded number of
      calls. */
  lemma FileConnection(g: Config, channel: Channel, ring: Ring, answers: seq<Answer>, c: Reading,
                       open: FileModel.OpenAnswer, statOk: bool, modOk: bool, header: string, file: string,
                       calls: seq<FileRuns.Call>)
    requires Unwrapped(ring, "") && PossibleRun(g, channel, Start(ring), answers)
    requires Live(g, channel, Start(ring), answers).HandOver? && c == Live(g, channel, Start(ring), answers).state
    requires header != "" && c.ring.Cleared().Ok()
    requires FileModel.Up(c.ring, open, statOk, header, modOk, c.retry).Started?
    requires FileRuns.PossibleRun(ModeOf(channel), file,
                                  FileModel.Up(c.ring, open, statOk, header, modOk, c.retry).conn, calls)
    ensures match FileRuns.Live(ModeOf(channel), file,
                                FileModel.Up(c.ring, open, statOk, header, modOk, c.retry).conn, calls)
            case Alive(c') => c'.toClient <= if HasBody(open) then header + file else header
            case Removed(RemoveOk, c') =>
              if HasBody(open) then 0 < open.size <= |file| && c'.toClient == header + file[..open.size]
              else c'.toClient == header
            case Removed(_, _) => true
    ensures channel.Clear? ==> |answers| + |calls| <= FileCalls(|header|, |file|)
  {
    hide Live, Route, UrlOf, PossibleRun, FileRuns.PossibleRun, FileRuns.Live, FileRuns.Inv, Ring.Contents;
    var m := ModeOf(channel);
    StartInv(ring);
    RunKeepsInv(g, channel, Start(ring), [], answers);
    ReadingIsBounded(g, channel, Start(ring), [], answers);
    var conn := FileModel.Up(c.ring, open, statOk, header, modOk, c.retry).conn;
    var size := if open.Opened? then open.size else 0;
    FileRuns.UpInv(m, c.ring, open, statOk, header, modOk, c.retry, file);
    if HasBody(open) {
      FileRuns.RunsSendWholeFile(m, file, size, header, conn, calls);
    } else {
      FileRuns.RunsSendHeader(m, file, size, header, conn, calls);
    }
    FileRuns.RunsAreBounded(m, file, size, header, conn, calls);
    FileWork(m, file, size, header, conn);
  }

  function ModeOf(channel: Channel): FileModel.Mode {
    if channel.Clear? then FileModel.Plain else FileModel.Tls
  }

  lemma FileWork(m: FileModel.Mode, file: string, size: nat, header: string, c: FileModel.Conn)
    requires FileRuns.Inv(m, file, size, header, c) && !c.phase.SendFile? && c.toClient == [] && c.retry == 0
    ensures FileRuns.CallsLeft(file, c) <= (2 + |header| + 3 * |file|) * (MAX_RETRIES + 2) + (MAX_RETRIES + 1)
  {
    assert c.toClient + c.ring.Contents() == c.ring.Contents();
  }
}
