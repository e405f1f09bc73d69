/** The analytics engine session: its fixed configuration, its name, the no-op
    state persistence and the restore loop that feeds persisted state documents
    into the engine's restore stream. */
module NativeAnalytics {
  import opened Wrappers
  import opened DocIds
  import opened StateRestore

  /** The configuration the session is created with; of its fields only the
      job identifier is used by the session itself. */
  datatype AnalyticsProcessConfig = AnalyticsProcessConfig(jobId: string)

  /** The name the session reports for its engine. */
  const Name: string := "analytics"

  /** How a restore call ends: rejected before any I/O because the prefix was
      null, or stopped by the loop. */
  datatype Restored = NullPrefixRejected | Stopped(stop: Stop)

  /** The output stream into which state documents are copied for the engine.
      Each completed write adds one document's payload; `closeCalls` counts the
      calls of Close. */
  class RestoreStream {
    var written: seq<Payload>
    var closed: bool
    var closeCalls: nat

    constructor ()
      ensures written == [] && !closed && closeCalls == 0
    {
      written, closed, closeCalls := [], false, 0;
    }

    /** Copies one payload into the stream. The write fails on a closed stream
        and whenever the underlying channel raises an I/O failure (`fault`). */
    method Write(payload: Payload, fault: bool) returns (ok: bool)
      modifies this
      ensures ok == (!old(closed) && !fault)
      ensures written == if ok then old(written) + [payload] else old(written)
      ensures closed == old(closed) && closeCalls == old(closeCalls)
    {
      ok := !closed && !fault;
      if ok {
        written := written + [payload];
      }
    }

    method Close()
      modifies this
      ensures closed && closeCalls == old(closeCalls) + 1 && written == old(written)
    {
      closed := true;
      closeCalls := closeCalls + 1;
    }
  }

  class AnalyticsProcess {
    const config: AnalyticsProcessConfig
    const restoreStream: RestoreStream

    constructor (config: AnalyticsProcessConfig)
      ensures this.config == config
      ensures fresh(restoreStream)
      ensures restoreStream.written == [] && !restoreStream.closed && restoreStream.closeCalls == 0
    {
      this.config := config;
      restoreStream := new RestoreStream();
    }

    function GetName(): (name: string)
      ensures name == "analytics"
    {
      Name
    }

    /** The configuration fixed at construction; no state is read. */
    function GetConfig(): (c: AnalyticsProcessConfig)
      ensures c == config
    {
      config
    }

    /** The engine persists its own state, so there is nothing to do here. */
    method PersistState()
      ensures unchanged(this, restoreStream)
    {
    }

    /** Copies the state documents prefix + "1", prefix + "2", ... into the
        restore stream until one is missing or the process is killed, and
        closes the stream on every way out of the loop. A null prefix is
        rejected before the stream is touched. `requested` lists the
        identifiers searched for, in order. */
    method RestoreState(store: Store, prefix: Option<string>, env: Env) returns (r: Restored, requested: seq<string>)
      modifies restoreStream
      ensures prefix.None? ==> r == NullPrefixRejected && requested == [] && unchanged(restoreStream)
      ensures prefix.Some? ==>
        var o := Restore(store, prefix.value, env, !old(restoreStream.closed));
        && r == Stopped(o.stop)
        && requested == o.requested
        && restoreStream.written == old(restoreStream.written) + o.written
        && restoreStream.closed
        && restoreStream.closeCalls == old(restoreStream.closeCalls) + 1
    {
      if prefix.None? {
        return NullPrefixRejected, [];
      }
      var p := prefix.value;
      ghost var open := !restoreStream.closed;
      ghost var whole := Restore(store, p, env, open);
      ghost var copied: seq<Payload> := [];
      requested := [];
      var stop: Stop;
      var docNum: nat := 0;
      while true
        invariant RunPresent(store, p, docNum)
        invariant restoreStream.closed == !open
        invariant restoreStream.closeCalls == old(restoreStream.closeCalls)
        invariant restoreStream.written == old(restoreStream.written) + copied
        invariant whole == After(requested, copied, RestoreFrom(store, p, env, open, docNum))
        decreases |store| - docNum
      {
        RestoreFromStep(store, p, env, open, docNum);
        if env.killed(docNum) {
          stop := Killed;
          break;
        }
        var iteration := docNum;
        docNum := docNum + 1;
        var id := DocId(p, docNum);
        requested := requested + [id];
        if env.fetchFails(iteration) {
          stop := FetchFailed;
          break;
        }
        if id !in store {
          stop := EndOfState;
          break;
        }
        var ok := restoreStream.Write(store[id], env.writeFails(iteration));
        if !ok {
          stop := WriteFailed;
          break;
        }
        RunBound(store.Keys, p, docNum);
        AfterStep(requested[..|requested| - 1], copied, id, store[id], RestoreFrom(store, p, env, open, docNum));
        assert requested[..|requested| - 1] + [id] == requested;
        copied := copied + [store[id]];
      }
      restoreStream.Close();
      r := Stopped(stop);
    }
  }

  /** Creating a session fails on a null configuration and otherwise yields a
      session holding exactly that configuration and a fresh, open restore stream. */
  method NewAnalyticsProcess(config: Option<AnalyticsProcessConfig>) returns (p: Option<AnalyticsProcess>)
    ensures p.None? <==> config.None?
    ensures p.Some? ==> fresh(p.value) && fresh(p.value.restoreStream) && p.value.config == config.value
    ensures p.Some? ==> p.value.restoreStream.written == [] && !p.value.restoreStream.closed
  {
    if config.None? {
      return None;
    }
    var process := new AnalyticsProcess(config.value);
    return Some(process);
  }
}
