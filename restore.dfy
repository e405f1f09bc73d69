/** A small Option type standing in for Java's nullable references. */
module Wrappers {
  datatype Option<+T> = None | Some(value: T)
}

/** What one call of the state-restore loop does, as a function of the store's
    contents and of what the loop's collaborators answer at each iteration.
    Iteration i (the number of documents already copied, which is also the
    value of the loop's counter before it is incremented) polls the kill flag,
    then asks the store for document i + 1, then copies it to the restore
    stream. */
module StateRestore {
  import opened DocIds

  newtype Byte = x: int | 0 <= x < 256

  /** The source bytes of one state document. */
  type Payload = seq<Byte>

  /** The state index, as a lookup from document identifier to payload. */
  type Store = map<string, Payload>

  /** The answers of the collaborators the loop cannot see, per iteration i:
      whether the process has been killed when the flag is polled, whether the
      search for document i + 1 raises an I/O failure, and whether copying
      that document into the restore stream raises one. */
  datatype Env = Env(killed: nat -> bool, fetchFails: nat -> bool, writeFails: nat -> bool)

  /** Why the loop stopped. The first two end the call normally; the last two
      propagate an I/O failure to the caller. */
  datatype Stop = EndOfState | Killed | FetchFailed | WriteFailed

  /** The identifiers searched for and the payloads copied, in order, and why
      the loop stopped. */
  datatype Outcome = Outcome(requested: seq<string>, written: seq<Payload>, stop: Stop)

  /** Documents 1 to k of the series are all in the store. */
  ghost predicate RunPresent(store: Store, prefix: string, k: nat) {
    forall j | 1 <= j <= k :: DocId(prefix, j) in store
  }

  /** Iteration i passes without stopping the loop (given its document is present). */
  predicate Passes(env: Env, open: bool, i: nat) {
    !env.killed(i) && !env.fetchFails(i) && !env.writeFails(i) && open
  }

  /** The loop, with counter n, stops at iteration n for the given reason. */
  ghost predicate StopsHere(store: Store, prefix: string, env: Env, open: bool, n: nat, stop: Stop) {
    match stop
    case Killed => env.killed(n)
    case FetchFailed => !env.killed(n) && env.fetchFails(n)
    case EndOfState => !env.killed(n) && !env.fetchFails(n) && DocId(prefix, n + 1) !in store
    case WriteFailed =>
      !env.killed(n) && !env.fetchFails(n) && DocId(prefix, n + 1) in store && (env.writeFails(n) || !open)
  }

  /** The rest of a restore from the moment the counter holds n. `open` says
      whether the restore stream was open when the call began; writing to a
      closed stream fails. */
  function RestoreFrom(store: Store, prefix: string, env: Env, open: bool, n: nat): (o: Outcome)
    requires RunPresent(store, prefix, n)
    ensures |o.requested| == |o.written| + (if o.stop == Killed then 0 else 1)
    ensures forall j | 0 <= j < |o.requested| :: o.requested[j] == DocId(prefix, n + j + 1)
    decreases |store| - n
  {
    if env.killed(n) then Outcome([], [], Killed)
    else if env.fetchFails(n) then Outcome([DocId(prefix, n + 1)], [], FetchFailed)
    else if DocId(prefix, n + 1) !in store then Outcome([DocId(prefix, n + 1)], [], EndOfState)
    else if env.writeFails(n) || !open then Outcome([DocId(prefix, n + 1)], [], WriteFailed)
    else
      RunBound(store.Keys, prefix, n + 1);
      var rest := RestoreFrom(store, prefix, env, open, n + 1);
      Outcome([DocId(prefix, n + 1)] + rest.requested, [store[DocId(prefix, n + 1)]] + rest.written, rest.stop)
  }

  /** One iteration of the loop, seen from the outcome it leads to. */
  lemma RestoreFromStep(store: Store, prefix: string, env: Env, open: bool, n: nat)
    requires RunPresent(store, prefix, n)
    ensures var o := RestoreFrom(store, prefix, env, open, n);
      var id := DocId(prefix, n + 1);
      && (env.killed(n) ==> o == Outcome([], [], Killed))
      && (!env.killed(n) && env.fetchFails(n) ==> o == Outcome([id], [], FetchFailed))
      && (!env.killed(n) && !env.fetchFails(n) && id !in store ==> o == Outcome([id], [], EndOfState))
      && (!env.killed(n) && !env.fetchFails(n) && id in store && (env.writeFails(n) || !open) ==>
            o == Outcome([id], [], WriteFailed))
      && (Passes(env, open, n) && id in store ==>
            && RunPresent(store, prefix, n + 1)
            && var rest := RestoreFrom(store, prefix, env, open, n + 1);
               o == Outcome([id] + rest.requested, [store[id]] + rest.written, rest.stop))
  {
  }

  /** An outcome preceded by the searches and copies already made. */
  function After(requested: seq<string>, written: seq<Payload>, o: Outcome): Outcome {
    Outcome(requested + o.requested, written + o.written, o.stop)
  }

  lemma AfterStep(requested: seq<string>, written: seq<Payload>, id: string, payload: Payload, rest: Outcome)
    ensures After(requested, written, Outcome([id] + rest.requested, [payload] + rest.written, rest.stop))
         == After(requested + [id], written + [payload], rest)
  {
  }

  /** A whole restore call: the counter starts at 0. */
  function Restore(store: Store, prefix: string, env: Env, open: bool): (o: Outcome)
    ensures forall j | 0 <= j < |o.requested| :: o.requested[j] == DocId(prefix, j + 1)
    ensures o.stop == Killed ==> |o.requested| == |o.written|
    ensures o.stop != Killed ==> |o.requested| == |o.written| + 1
  {
    RestoreFrom(store, prefix, env, open, 0)
  }

  /** Every outcome is explained by its first obstacle: the copied payloads are
      documents n + 1, n + 2, ... in order, every iteration before the last passed,
      and the last one stopped for the reason reported. */
  lemma {:induction false} RestoreStopsAtFirstObstacle(store: Store, prefix: string, env: Env, open: bool, n: nat)
    requires RunPresent(store, prefix, n)
    ensures var o := RestoreFrom(store, prefix, env, open, n);
      var k := n + |o.written|;
      && RunPresent(store, prefix, k)
      && (forall j | 0 <= j < |o.written| :: o.written[j] == store[DocId(prefix, n + j + 1)])
      && (forall i | n <= i < k :: Passes(env, open, i))
      && StopsHere(store, prefix, env, open, k, o.stop)
    decreases |store| - n
  {
    var o := RestoreFrom(store, prefix, env, open, n);
    if Passes(env, open, n) && DocId(prefix, n + 1) in store {
      RunBound(store.Keys, prefix, n + 1);
      RestoreStopsAtFirstObstacle(store, prefix, env, open, n + 1);
      var rest := RestoreFrom(store, prefix, env, open, n + 1);
      assert o.written == [store[DocId(prefix, n + 1)]] + rest.written;
    }
  }

  /** Conversely, a first obstacle at iteration k fixes the outcome: exactly the
      documents n + 1 to k are copied and the loop stops for that obstacle's reason. */
  lemma {:induction false} FirstObstacleDeterminesRestore(
    store: Store, prefix: string, env: Env, open: bool, n: nat, k: nat, stop: Stop)
    requires n <= k && RunPresent(store, prefix, k)
    requires forall i | n <= i < k :: Passes(env, open, i)
    requires StopsHere(store, prefix, env, open, k, stop)
    ensures RestoreFrom(store, prefix, env, open, n).stop == stop
    ensures |RestoreFrom(store, prefix, env, open, n).written| == k - n
    decreases k - n
  {
    if n < k {
      assert Passes(env, open, n);
      assert DocId(prefix, n + 1) in store;
      RunBound(store.Keys, prefix, n + 1);
      FirstObstacleDeterminesRestore(store, prefix, env, open, n + 1, k, stop);
    }
  }

  /** Documents 1 to count of the series, in order, are the payloads listed. */
  ghost predicate CopiesInOrder(store: Store, prefix: string, written: seq<Payload>, count: nat) {
    && |written| == count
    && RunPresent(store, prefix, count)
    && forall j | 0 <= j < count :: written[j] == store[DocId(prefix, j + 1)]
  }

  /** With documents 1 to N present, document N + 1 absent and no kill or I/O
      failure, a restore copies exactly those N payloads in sequence order,
      asks for documents 1 to N + 1 and ends normally. */
  lemma RestoreCopiesWholeRun(store: Store, prefix: string, env: Env, open: bool, count: nat)
    requires RunPresent(store, prefix, count) && DocId(prefix, count + 1) !in store
    requires forall i | 0 <= i < count :: Passes(env, open, i)
    requires !env.killed(count) && !env.fetchFails(count)
    ensures var o := Restore(store, prefix, env, open);
      && o.stop == EndOfState
      && CopiesInOrder(store, prefix, o.written, count)
      && |o.requested| == count + 1
  {
    FirstObstacleDeterminesRestore(store, prefix, env, open, 0, count, EndOfState);
    RestoreStopsAtFirstObstacle(store, prefix, env, open, 0);
  }

  /** When document 1 does not exist, a restore copies nothing and ends
      normally: an empty state is not an error. */
  lemma RestoreEmptyState(store: Store, prefix: string, env: Env, open: bool)
    requires DocId(prefix, 1) !in store
    requires !env.killed(0) && !env.fetchFails(0)
    ensures var o := Restore(store, prefix, env, open);
      o.stop == EndOfState && o.written == [] && o.requested == [DocId(prefix, 1)]
  {
  }

  /** A kill observed at the first poll means no search and no write at all. */
  lemma RestoreKilledAtEntry(store: Store, prefix: string, env: Env, open: bool)
    requires env.killed(0)
    ensures var o := Restore(store, prefix, env, open);
      o.stop == Killed && o.requested == [] && o.written == []
  {
  }

  /** A kill first observed before iteration k + 1 (after k documents were
      copied) leaves exactly those k documents, whole and in order, in the
      stream, and no further search is made. */
  lemma RestoreKilledAfter(store: Store, prefix: string, env: Env, open: bool, k: nat)
    requires RunPresent(store, prefix, k)
    requires forall i | 0 <= i < k :: Passes(env, open, i)
    requires env.killed(k)
    ensures var o := Restore(store, prefix, env, open);
      && o.stop == Killed
      && CopiesInOrder(store, prefix, o.written, k)
      && |o.requested| == k
  {
    FirstObstacleDeterminesRestore(store, prefix, env, open, 0, k, Killed);
    RestoreStopsAtFirstObstacle(store, prefix, env, open, 0);
  }

  /** The kill flag is polled, and found clear, before every search. */
  lemma KillPolledBeforeEveryFetch(store: Store, prefix: string, env: Env, open: bool)
    ensures var o := Restore(store, prefix, env, open);
      forall i | 0 <= i < |o.requested| :: !env.killed(i)
  {
    RestoreStopsAtFirstObstacle(store, prefix, env, open, 0);
    var o := Restore(store, prefix, env, open);
    forall i | 0 <= i < |o.requested| ensures !env.killed(i) {
      if i < |o.written| {
        assert Passes(env, open, i);
      } else {
        assert o.stop != Killed && i == |o.written|;
      }
    }
  }

  /** A search that fails for document 1 propagates the failure with nothing copied. */
  lemma RestoreFirstFetchFails(store: Store, prefix: string, env: Env, open: bool)
    requires !env.killed(0) && env.fetchFails(0)
    ensures var o := Restore(store, prefix, env, open);
      o.stop == FetchFailed && o.written == [] && o.requested == [DocId(prefix, 1)]
  {
  }
}

/** A worked restore: two documents stored for the series "job1_". */
module RestoreScenario {
  import opened DocIds
  import opened StateRestore

  /** Documents "job1_1" and "job1_2" exist and "job1_3" does not: an
      uninterrupted restore copies the two payloads in order, searches three
      times and ends normally. */
  lemma TwoDocumentSeries(first: Payload, second: Payload, env: Env)
    requires forall i :: !env.killed(i) && !env.fetchFails(i) && !env.writeFails(i)
    ensures var o := Restore(map["job1_1" := first, "job1_2" := second], "job1_", env, true);
      && o.stop == EndOfState
      && o.written == [first, second]
      && o.requested == ["job1_1", "job1_2", "job1_3"]
  {
    var store := map["job1_1" := first, "job1_2" := second];
    assert DocId("job1_", 1) == "job1_1";
    assert DocId("job1_", 2) == "job1_2";
    assert DocId("job1_", 3) == "job1_3";
    assert "job1_3"[5] != "job1_1"[5] && "job1_3"[5] != "job1_2"[5];
    RestoreCopiesWholeRun(store, "job1_", env, true, 2);
  }
}
