/** The consumer runner: retries, the dead-letter topic and batch commits around an arbitrary handler. */
module Consumer {
  import opened Options

  datatype Header = Header(key: string, value: string)

  datatype Record = Record(topic: string, key: string, value: string, headers: seq<Header>)

  /** What the payload turns out to be. */
  datatype Payload = Invalid | NoEventID | Event

  /** Everything outside the runner. The handler answers its n-th call with no error or with an error text; the
      dead-letter topic takes the n-th copy or not; the n-th wait is cut short by cancellation or not; the n-th
      commit succeeds or not. */
  datatype World = World(parse: string -> Payload, handler: nat -> Option<string>, accepts: nat -> bool,
                         cancels: nat -> bool, commits: nat -> bool)

  /** How often the outside has been used, and what it has taken. */
  datatype Trace = Trace(calls: nat, waits: nat, publishes: nat, copies: seq<Record>, commitTries: nat,
                         committed: seq<seq<Record>>)

  datatype Config = Config(maxRetries: int, dlqTopic: Option<string>)

  datatype Done = Done(ok: bool, trace: Trace, retried: nat)

  /** The record as it goes to the dead-letter topic. */
  function CopyOf(record: Record, topic: string, reason: string): Record {
    Record(topic, record.key, record.value,
           record.headers + [Header("x_failure_reason", reason), Header("x_source_topic", record.topic)])
  }

  function DeadLetter(cfg: Config, w: World, t: Trace, record: Record, reason: string): Done {
    match cfg.dlqTopic
    case None => Done(false, t, 0)
    case Some(topic) =>
      var t1 := t.(publishes := t.publishes + 1);
      if w.accepts(t.publishes) then Done(true, t1.(copies := t.copies + [CopyOf(record, topic, reason)]), 0)
      else Done(false, t1, 0)
  }

  /** The retry loop from attempt `a` on. */
  function Attempts(cfg: Config, w: World, t: Trace, record: Record, a: nat): Done
    decreases cfg.maxRetries - a
  {
    if a > cfg.maxRetries then Done(true, t, 0)
    else
      var t1 := t.(calls := t.calls + 1);
      match w.handler(t.calls)
      case None => Done(true, t1, 0)
      case Some(error) =>
        if a == cfg.maxRetries then DeadLetter(cfg, w, t1, record, error)
        else
          var t2 := t1.(waits := t.waits + 1);
          if w.cancels(t.waits) then Done(false, t2, 1)
          else
            var d := Attempts(cfg, w, t2, record, a + 1);
            d.(retried := d.retried + 1)
  }

  function Process(cfg: Config, w: World, t: Trace, record: Record): Done {
    match w.parse(record.value)
    case Invalid => DeadLetter(cfg, w, t, record, "invalid payload")
    case NoEventID => DeadLetter(cfg, w, t, record, "missing event_id")
    case Event => Attempts(cfg, w, t, record, 0)
  }

  /** One of the handler's calls from `from` up to `to` returned no error. */
  ghost predicate Handled(w: World, from: nat, to: nat) {
    exists i :: from <= i < to && w.handler(i) == None
  }

  /** The record as it should arrive on the dead-letter topic: there and not where it came from, with its key and
      value, and behind its headers two more, that say why and whence. */
  predicate IsCopy(cfg: Config, copy: Record, record: Record) {
    var n := |record.headers|;
    && cfg.dlqTopic == Some(copy.topic) && copy.key == record.key && copy.value == record.value
    && |copy.headers| == n + 2 && copy.headers[..n] == record.headers
    && copy.headers[n].key == "x_failure_reason"
    && copy.headers[n + 1].key == "x_source_topic" && copy.headers[n + 1].value == record.topic
  }

  /** The dead-letter topic got exactly one copy of the record. */
  ghost predicate OneCopy(cfg: Config, before: Trace, after: Trace, record: Record) {
    && |after.copies| == |before.copies| + 1 && before.copies <= after.copies
    && IsCopy(cfg, after.copies[|before.copies|], record)
  }

  /** What a copy says went wrong. */
  function ReasonOf(copy: Record): string
    requires |copy.headers| >= 2
  {
    copy.headers[|copy.headers| - 2].value
  }

  /** The reason is what the payload lacks, or the error of the handler's last call. */
  lemma CopyTellsWhy(cfg: Config, w: World, t: Trace, record: Record)
    requires cfg.maxRetries >= 0 && OneCopy(cfg, t, Process(cfg, w, t, record).trace, record)
    ensures var after := Process(cfg, w, t, record).trace;
            var reason := ReasonOf(after.copies[|t.copies|]);
            match w.parse(record.value)
            case Invalid => reason == "invalid payload" && after.calls == t.calls
            case NoEventID => reason == "missing event_id" && after.calls == t.calls
            case Event => after.calls > t.calls && w.handler(after.calls - 1) == Some(reason)
  {
    if w.parse(record.value) == Event {
      LastErrorIsReason(cfg, w, t, record, 0);
    }
  }

  lemma {:induction false} LastErrorIsReason(cfg: Config, w: World, t: Trace, record: Record, a: nat)
    requires a <= cfg.maxRetries && |Attempts(cfg, w, t, record, a).trace.copies| > |t.copies|
    ensures var after := Attempts(cfg, w, t, record, a).trace;
            && |after.copies[|t.copies|].headers| >= 2
            && after.calls > t.calls && w.handler(after.calls - 1) == Some(ReasonOf(after.copies[|t.copies|]))
    decreases cfg.maxRetries - a
  {
    if a < cfg.maxRetries && w.handler(t.calls).Some? && !w.cancels(t.waits) {
      LastErrorIsReason(cfg, w, t.(calls := t.calls + 1, waits := t.waits + 1), record, a + 1);
    }
  }

  /** What attempts leave behind: a success of the handler, or one copy, or neither and then no success. */
  lemma {:induction false} AttemptsExplained(cfg: Config, w: World, t: Trace, record: Record, a: nat)
    requires a <= cfg.maxRetries
    ensures var d := Attempts(cfg, w, t, record, a);
            (d.ok <==> Handled(w, t.calls, d.trace.calls) || OneCopy(cfg, t, d.trace, record)) &&
            (!OneCopy(cfg, t, d.trace, record) ==> d.trace.copies == t.copies) &&
            (Handled(w, t.calls, d.trace.calls) ==> d.trace.publishes == t.publishes && d.trace.copies == t.copies)
    ensures var d := Attempts(cfg, w, t, record, a);
            t.calls < d.trace.calls <= t.calls + cfg.maxRetries - a + 1 &&
            d.trace.publishes <= t.publishes + 1 && d.retried <= cfg.maxRetries - a
    decreases cfg.maxRetries - a
  {
    var d := Attempts(cfg, w, t, record, a);
    var t1 := t.(calls := t.calls + 1);
    match w.handler(t.calls)
    case None =>
      assert Handled(w, t.calls, d.trace.calls);
    case Some(error) =>
      if a == cfg.maxRetries {
        DLQExplained(cfg, w, t1, record, error);
        assert OneCopy(cfg, t, d.trace, record) <==> OneCopy(cfg, t1, d.trace, record);
      } else {
        var t2 := t1.(waits := t.waits + 1);
        if !w.cancels(t.waits) {
          AttemptsExplained(cfg, w, t2, record, a + 1);
          assert Handled(w, t.calls, d.trace.calls) <==> Handled(w, t2.calls, d.trace.calls);
          assert OneCopy(cfg, t, d.trace, record) <==> OneCopy(cfg, t2, d.trace, record);
        }
      }
  }

  lemma DLQExplained(cfg: Config, w: World, t: Trace, record: Record, reason: string)
    ensures var d := DeadLetter(cfg, w, t, record, reason);
            (d.ok <==> OneCopy(cfg, t, d.trace, record)) &&
            (!d.ok ==> d.trace.copies == t.copies) && d.trace.calls == t.calls && d.retried == 0 &&
            t.publishes <= d.trace.publishes <= t.publishes + 1
  {
    var d := DeadLetter(cfg, w, t, record, reason);
    if d.ok {
      var copy := CopyOf(record, cfg.dlqTopic.value, reason);
      assert d.trace.copies == t.copies + [copy];
      assert copy.headers[..|record.headers|] == record.headers;
    }
  }

  /** A record is taken as processed exactly if the handler returned no error within `maxRetries + 1` calls, or
      the dead-letter topic took one copy of it; never both, and no copy is left behind otherwise. */
  lemma ProcessedIff(cfg: Config, w: World, t: Trace, record: Record)
    requires cfg.maxRetries >= 0
    ensures var d := Process(cfg, w, t, record);
            (d.ok <==> Handled(w, t.calls, d.trace.calls) || OneCopy(cfg, t, d.trace, record)) &&
            !(Handled(w, t.calls, d.trace.calls) && OneCopy(cfg, t, d.trace, record)) &&
            (!d.ok ==> d.trace.copies == t.copies) &&
            d.trace.calls <= t.calls + cfg.maxRetries + 1 && d.retried <= cfg.maxRetries
  {
    var d := Process(cfg, w, t, record);
    match w.parse(record.value)
    case Event => AttemptsExplained(cfg, w, t, record, 0);
    case Invalid => DLQExplained(cfg, w, t, record, "invalid payload");
    case NoEventID => DLQExplained(cfg, w, t, record, "missing event_id");
  }

  /** With a negative retry limit every well-formed record is taken as processed, and the handler never sees it. */
  lemma NegativeRetriesSkip(cfg: Config, w: World, t: Trace, record: Record)
    requires w.parse(record.value) == Event
    ensures cfg.maxRetries < 0 <==> Process(cfg, w, t, record).trace.calls == t.calls
    ensures cfg.maxRetries < 0 ==> Process(cfg, w, t, record) == Done(true, t, 0)
  {
    if cfg.maxRetries >= 0 {
      AttemptsExplained(cfg, w, t, record, 0);
    }
  }

  /** `n` failed calls in a row, each followed by a wait that is not cut short. */
  ghost predicate FailsFor(w: World, calls: nat, waits: nat, n: nat)
    decreases n
  {
    n == 0 || (w.handler(calls) != None && !w.cancels(waits) && FailsFor(w, calls + 1, waits + 1, n - 1))
  }

  /** After `n` failures the next call succeeds, or it is the last of `left` retries and the dead-letter topic
      takes the copy. */
  ghost predicate Foreseen(cfg: Config, w: World, t: Trace, n: nat, left: int) {
    n <= left && FailsFor(w, t.calls, t.waits, n) &&
    (w.handler(t.calls + n) == None || (n == left && cfg.dlqTopic.Some? && w.accepts(t.publishes)))
  }

  /** Success foreseen from the answers of the outside alone. */
  ghost predicate WillSucceed(cfg: Config, w: World, t: Trace, left: int) {
    exists n: nat :: Foreseen(cfg, w, t, n, left)
  }

  lemma WillSucceedNext(cfg: Config, w: World, t: Trace, left: int)
    requires left > 0 && w.handler(t.calls) != None
    ensures var t2 := t.(calls := t.calls + 1, waits := t.waits + 1);
            WillSucceed(cfg, w, t, left) <==> !w.cancels(t.waits) && WillSucceed(cfg, w, t2, left - 1)
  {
    var t2 := t.(calls := t.calls + 1, waits := t.waits + 1);
    if n: nat :| Foreseen(cfg, w, t, n, left) {
      assert Foreseen(cfg, w, t2, n - 1, left - 1);
    }
    if !w.cancels(t.waits) && WillSucceed(cfg, w, t2, left - 1) {
      var n: nat :| Foreseen(cfg, w, t2, n, left - 1);
      assert t.calls + (n + 1) == t2.calls + n;
      assert Foreseen(cfg, w, t, n + 1, left);
    }
  }

  lemma WillSucceedNow(cfg: Config, w: World, t: Trace, left: int)
    requires left == 0 || (left > 0 && w.handler(t.calls) == None)
    ensures WillSucceed(cfg, w, t, left) <==>
            w.handler(t.calls) == None || (cfg.dlqTopic.Some? && w.accepts(t.publishes))
  {
    if w.handler(t.calls) == None || (cfg.dlqTopic.Some? && w.accepts(t.publishes)) {
      assert Foreseen(cfg, w, t, 0, left);
    }
    if n: nat :| Foreseen(cfg, w, t, n, left) {
      assert n > 0 ==> w.handler(t.calls) != None;
    }
  }

  lemma {:induction false} AttemptsForeseen(cfg: Config, w: World, t: Trace, record: Record, a: nat)
    requires a <= cfg.maxRetries
    ensures Attempts(cfg, w, t, record, a).ok <==> WillSucceed(cfg, w, t, cfg.maxRetries - a)
    decreases cfg.maxRetries - a
  {
    if a == cfg.maxRetries || w.handler(t.calls) == None {
      WillSucceedNow(cfg, w, t, cfg.maxRetries - a);
    } else {
      WillSucceedNext(cfg, w, t, cfg.maxRetries - a);
      if !w.cancels(t.waits) {
        AttemptsForeseen(cfg, w, t.(calls := t.calls + 1, waits := t.waits + 1), record, a + 1);
      }
    }
  }

  /** Whether a record will be taken as processed, foreseen from the answers of the outside. */
  lemma ProcessForeseen(cfg: Config, w: World, t: Trace, record: Record)
    requires cfg.maxRetries >= 0
    ensures Process(cfg, w, t, record).ok <==>
            if w.parse(record.value) == Event then WillSucceed(cfg, w, t, cfg.maxRetries)
            else cfg.dlqTopic.Some? && w.accepts(t.publishes)
  {
    if w.parse(record.value) == Event {
      AttemptsForeseen(cfg, w, t, record, 0);
    }
  }

  /** A call to the handler is counted as a retry exactly if a wait follows it; it is followed by another call
      unless the wait is cut short, and the record is then not processed. */
  lemma {:induction false} AttemptsCount(cfg: Config, w: World, t: Trace, record: Record, a: nat)
    requires a <= cfg.maxRetries
    ensures var d := Attempts(cfg, w, t, record, a);
            && d.retried == d.trace.waits - t.waits
            && (|| d.retried == d.trace.calls - t.calls
                || (d.retried == d.trace.calls - t.calls - 1
                    && forall i :: t.waits <= i < d.trace.waits ==> !w.cancels(i)))
            && (d.retried == d.trace.calls - t.calls ==>
                  d.retried > 0 && w.cancels(d.trace.waits - 1) && !d.ok && d.trace.publishes == t.publishes)
    decreases cfg.maxRetries - a
  {
    if a < cfg.maxRetries && w.handler(t.calls).Some? && !w.cancels(t.waits) {
      AttemptsCount(cfg, w, t.(calls := t.calls + 1, waits := t.waits + 1), record, a + 1);
    }
  }

  /** The runner's counters together with what the outside has seen. */
  datatype State = State(trace: Trace, processed: nat, retried: nat, dlqMessages: nat, failedRecords: nat)

  datatype Batch = Batch(toCommit: seq<Record>, state: State)

  /** One record of a batch; a missing one is passed over. */
  function Take(cfg: Config, w: World, b: Batch, record: Option<Record>): Batch {
    match record
    case None => b
    case Some(r) =>
      var s := b.state;
      var d := Process(cfg, w, s.trace, r);
      var s1 := s.(trace := d.trace, retried := s.retried + d.retried,
                   dlqMessages := s.dlqMessages + if |d.trace.copies| > |s.trace.copies| then 1 else 0);
      if d.ok then Batch(b.toCommit + [r], s1.(processed := s.processed + 1))
      else Batch(b.toCommit, s1.(failedRecords := s.failedRecords + 1))
  }

  /** The records of one poll, in order. */
  function Iterate(cfg: Config, w: World, s: State, records: seq<Option<Record>>): Batch {
    if records == [] then Batch([], s)
    else Take(cfg, w, Iterate(cfg, w, s, records[..|records| - 1]), records[|records| - 1])
  }

  /** The commit after a poll; an empty batch is not committed. */
  function Commit(w: World, b: Batch): State {
    var t := b.state.trace;
    if b.toCommit == [] then b.state
    else if w.commits(t.commitTries) then
      b.state.(trace := t.(commitTries := t.commitTries + 1, committed := t.committed + [b.toCommit]))
    else
      b.state.(trace := t.(commitTries := t.commitTries + 1),
               failedRecords := b.state.failedRecords + |b.toCommit|)
  }

  function Poll(cfg: Config, w: World, s: State, records: seq<Option<Record>>): State {
    Commit(w, Iterate(cfg, w, s, records))
  }

  /** A poll commits its whole batch at once, or nothing, and nothing if the batch is empty. */
  lemma {:induction false} CommitsTheBatch(cfg: Config, w: World, s: State, records: seq<Option<Record>>)
    requires cfg.maxRetries >= 0
    ensures var b := Iterate(cfg, w, s, records);
            var end := Poll(cfg, w, s, records);
            && (end.trace.committed == s.trace.committed || end.trace.committed == s.trace.committed + [b.toCommit])
            && (end.trace.committed == s.trace.committed <==>
                  b.toCommit == [] || !w.commits(b.state.trace.commitTries))
            && end.processed == b.state.processed
  {
    IterateAccounts(cfg, w, s, records);
  }

  /** Polls one after the other. */
  function Run(cfg: Config, w: World, s: State, polls: seq<seq<Option<Record>>>): State {
    if polls == [] then s
    else Poll(cfg, w, Run(cfg, w, s, polls[..|polls| - 1]), polls[|polls| - 1])
  }

  function Present(records: seq<Option<Record>>): nat {
    if records == [] then 0
    else Present(records[..|records| - 1]) + if records[|records| - 1].Some? then 1 else 0
  }

  function PresentIn(polls: seq<seq<Option<Record>>>): nat {
    if polls == [] then 0 else PresentIn(polls[..|polls| - 1]) + Present(polls[|polls| - 1])
  }

  function Lengths(batches: seq<seq<Record>>): nat {
    if batches == [] then 0 else Lengths(batches[..|batches| - 1]) + |batches[|batches| - 1]|
  }

  /** A record enters the commit batch exactly if it was handled in time or dead-lettered; it keeps its place. */
  lemma {:induction false} EntersBatchIff(cfg: Config, w: World, s: State, records: seq<Option<Record>>, i: nat)
    requires cfg.maxRetries >= 0 && i < |records| && records[i].Some?
    ensures var before := Iterate(cfg, w, s, records[..i]);
            var after := Iterate(cfg, w, s, records[..i + 1]);
            var record := records[i].value;
            after.toCommit == before.toCommit +
              (if Handled(w, before.state.trace.calls, after.state.trace.calls) ||
                  OneCopy(cfg, before.state.trace, after.state.trace, record) then [record] else [])
    ensures Iterate(cfg, w, s, records[..i + 1]).toCommit <= Iterate(cfg, w, s, records).toCommit
  {
    assert records[..i + 1][..i] == records[..i];
    ProcessedIff(cfg, w, Iterate(cfg, w, s, records[..i]).state.trace, records[i].value);
    BatchGrows(cfg, w, s, records, i + 1);
  }

  lemma {:induction false} BatchGrows(cfg: Config, w: World, s: State, records: seq<Option<Record>>, i: nat)
    requires i <= |records|
    ensures Iterate(cfg, w, s, records[..i]).toCommit <= Iterate(cfg, w, s, records).toCommit
  {
    if i == |records| {
      assert records[..i] == records;
    } else {
      var n := |records| - 1;
      assert records[..n][..i] == records[..i];
      BatchGrows(cfg, w, s, records[..n], i);
    }
  }

  /** The books of one poll before its commit. */
  predicate Accounted(cfg: Config, s: State, b: Batch, present: nat) {
    b.state.processed == s.processed + |b.toCommit| &&
    b.state.processed + b.state.failedRecords == s.processed + s.failedRecords + present &&
    b.state.retried <= s.retried + cfg.maxRetries * present &&
    b.state.dlqMessages - s.dlqMessages == |b.state.trace.copies| - |s.trace.copies| &&
    b.state.trace.committed == s.trace.committed
  }

  lemma ProcessKeeps(cfg: Config, w: World, t: Trace, record: Record)
    requires cfg.maxRetries >= 0
    ensures var d := Process(cfg, w, t, record);
            d.trace.committed == t.committed && d.trace.commitTries == t.commitTries &&
            |t.copies| <= |d.trace.copies| <= |t.copies| + 1
  {
    if w.parse(record.value) == Event {
      AttemptsKeep(cfg, w, t, record, 0);
    }
  }

  lemma {:induction false} AttemptsKeep(cfg: Config, w: World, t: Trace, record: Record, a: nat)
    ensures var d := Attempts(cfg, w, t, record, a);
            d.trace.committed == t.committed && d.trace.commitTries == t.commitTries &&
            |t.copies| <= |d.trace.copies| <= |t.copies| + 1
    decreases cfg.maxRetries - a
  {
    if a < cfg.maxRetries {
      AttemptsKeep(cfg, w, t.(calls := t.calls + 1, waits := t.waits + 1), record, a + 1);
    }
  }

  lemma RetriesScale(m: int, n: nat)
    ensures m * (n + 1) == m * n + m
  {
  }

  /** Of the records of a poll each is processed or failed; there are at most `maxRetries` retries for each, and
      the dead-letter counter counts the copies. */
  lemma {:induction false} IterateAccounts(cfg: Config, w: World, s: State, records: seq<Option<Record>>)
    requires cfg.maxRetries >= 0
    ensures Accounted(cfg, s, Iterate(cfg, w, s, records), Present(records))
  {
    if records != [] {
      var n := |records| - 1;
      IterateAccounts(cfg, w, s, records[..n]);
      if records[n].Some? {
        var t := Iterate(cfg, w, s, records[..n]).state.trace;
        ProcessedIff(cfg, w, t, records[n].value);
        ProcessKeeps(cfg, w, t, records[n].value);
        RetriesScale(cfg.maxRetries, Present(records[..n]));
      }
    }
  }

  /** The books of a whole run: every record is either in a committed batch or counted as failed. */
  predicate Balanced(cfg: Config, s: State, end: State, present: nat) {
    end.failedRecords - s.failedRecords + (Lengths(end.trace.committed) - Lengths(s.trace.committed)) == present &&
    end.processed - s.processed >= Lengths(end.trace.committed) - Lengths(s.trace.committed) &&
    end.retried <= s.retried + cfg.maxRetries * present &&
    end.dlqMessages - s.dlqMessages == |end.trace.copies| - |s.trace.copies|
  }

  lemma CommitBalances(cfg: Config, w: World, s: State, b: Batch, present: nat)
    requires Accounted(cfg, s, b, present)
    ensures Balanced(cfg, s, Commit(w, b), present)
  {
    if b.toCommit != [] && w.commits(b.state.trace.commitTries) {
      var after := s.trace.committed + [b.toCommit];
      assert after[..|after| - 1] == s.trace.committed;
    }
  }

  lemma RetriesAdd(m: int, a: nat, b: nat)
    ensures m * a + m * b == m * (a + b)
  {
  }

  /** Conservation over every run, whatever the handler, the dead-letter topic and the commits answer. */
  lemma {:induction false} RunBalances(cfg: Config, w: World, s: State, polls: seq<seq<Option<Record>>>)
    requires cfg.maxRetries >= 0
    ensures Balanced(cfg, s, Run(cfg, w, s, polls), PresentIn(polls))
  {
    if polls != [] {
      var n := |polls| - 1;
      RunBalances(cfg, w, s, polls[..n]);
      var mid := Run(cfg, w, s, polls[..n]);
      IterateAccounts(cfg, w, mid, polls[n]);
      CommitBalances(cfg, w, mid, Iterate(cfg, w, mid, polls[n]), Present(polls[n]));
      RetriesAdd(cfg.maxRetries, PresentIn(polls[..n]), Present(polls[n]));
    }
  }

  /** The outside as the runner meets it: each use is answered and recorded. */
  class Outside {
    const world: World
    var trace: Trace

    constructor (world: World)
      ensures this.world == world && trace == Trace(0, 0, 0, [], 0, [])
    {
      this.world := world;
      trace := Trace(0, 0, 0, [], 0, []);
    }

    method Handle() returns (error: Option<string>)
      modifies this
      ensures trace == old(trace).(calls := old(trace).calls + 1)
      ensures error == world.handler(old(trace).calls)
    {
      error := world.handler(trace.calls);
      trace := trace.(calls := trace.calls + 1);
    }

    method Wait() returns (cancelled: bool)
      modifies this
      ensures trace == old(trace).(waits := old(trace).waits + 1)
      ensures cancelled == world.cancels(old(trace).waits)
    {
      cancelled := world.cancels(trace.waits);
      trace := trace.(waits := trace.waits + 1);
    }

    method Produce(copy: Record) returns (accepted: bool)
      modifies this
      ensures accepted == world.accepts(old(trace).publishes)
      ensures trace == old(trace).(publishes := old(trace).publishes + 1,
                                   copies := old(trace).copies + if accepted then [copy] else [])
    {
      accepted := world.accepts(trace.publishes);
      trace := trace.(publishes := trace.publishes + 1, copies := trace.copies + if accepted then [copy] else []);
    }

    method CommitRecords(batch: seq<Record>) returns (ok: bool)
      modifies this
      ensures ok == world.commits(old(trace).commitTries)
      ensures trace == old(trace).(commitTries := old(trace).commitTries + 1,
                                   committed := old(trace).committed + if ok then [batch] else [])
    {
      ok := world.commits(trace.commitTries);
      trace := trace.(commitTries := trace.commitTries + 1, committed := trace.committed + if ok then [batch] else []);
    }
  }

  class Runner {
    const cfg: Config
    const outside: Outside
    var processed: nat
    var retried: nat
    var dlqMessages: nat
    var failedRecords: nat

    constructor (cfg: Config, outside: Outside)
      ensures this.cfg == cfg && this.outside == outside && Now() == State(outside.trace, 0, 0, 0, 0)
    {
      this.cfg, this.outside := cfg, outside;
      processed, retried, dlqMessages, failedRecords := 0, 0, 0, 0;
    }

    function Now(): State
      reads this, outside
    {
      State(outside.trace, processed, retried, dlqMessages, failedRecords)
    }

    /** The counters a record changes on the way to its outcome. */
    ghost predicate Did(s: State, d: Done)
      reads this, outside
    {
      Now() == s.(trace := d.trace, retried := s.retried + d.retried,
                  dlqMessages := s.dlqMessages + if |d.trace.copies| > |s.trace.copies| then 1 else 0)
    }

    method SendToDLQ(record: Record, failure: string) returns (ok: bool)
      modifies this, outside
      ensures Did(old(Now()), DeadLetter(cfg, outside.world, old(outside.trace), record, failure))
      ensures ok == DeadLetter(cfg, outside.world, old(outside.trace), record, failure).ok
    {
      if cfg.dlqTopic.None? {
        return false;
      }
      ok := outside.Produce(CopyOf(record, cfg.dlqTopic.value, failure));
      if ok {
        dlqMessages := dlqMessages + 1;
      }
    }

    method ProcessRecord(record: Record) returns (ok: bool)
      modifies this, outside
      ensures Did(old(Now()), Process(cfg, outside.world, old(outside.trace), record))
      ensures ok == Process(cfg, outside.world, old(outside.trace), record).ok
    {
      var payload := outside.world.parse(record.value);
      if payload == Invalid {
        ok := SendToDLQ(record, "invalid payload");
        return;
      }
      if payload == NoEventID {
        ok := SendToDLQ(record, "missing event_id");
        return;
      }
      ok := Retry(record);
    }

    /** Where the retry loop stands after `n` failed attempts. */
    ghost predicate Standing(s: State, record: Record, n: nat)
      reads this, outside
    {
      outside.trace.copies == s.trace.copies &&
      Now() == s.(trace := outside.trace, retried := s.retried + n) &&
      Attempts(cfg, outside.world, s.trace, record, 0) ==
      Resumed(Attempts(cfg, outside.world, outside.trace, record, n), n)
    }

    /** The retry loop: up to `maxRetries + 1` calls of the handler with a wait between them. */
    method Retry(record: Record) returns (ok: bool)
      modifies this, outside
      ensures Did(old(Now()), Attempts(cfg, outside.world, old(outside.trace), record, 0))
      ensures ok == Attempts(cfg, outside.world, old(outside.trace), record, 0).ok
    {
      var attempt: nat := 0;
      while attempt <= cfg.maxRetries
        invariant Standing(old(Now()), record, attempt)
      {
        var error := outside.Handle();
        if error.None? {
          return true;
        }
        if attempt == cfg.maxRetries {
          ok := SendToDLQ(record, error.value);
          return;
        }
        retried := retried + 1;
        var cancelled := outside.Wait();
        if cancelled {
          return false;
        }
        attempt := attempt + 1;
      }
      ok := true;
    }

    /** One poll: its records, then the commit of those that were processed. */
    method RunBatch(records: seq<Option<Record>>)
      modifies this, outside
      ensures Now() == Poll(cfg, outside.world, old(Now()), records)
    {
      var toCommit: seq<Record> := [];
      for i := 0 to |records|
        invariant Batch(toCommit, Now()) == Iterate(cfg, outside.world, old(Now()), records[..i])
      {
        assert records[..i + 1][..i] == records[..i];
        if records[i].Some? {
          var ok := ProcessRecord(records[i].value);
          if ok {
            toCommit := toCommit + [records[i].value];
            processed := processed + 1;
          } else {
            failedRecords := failedRecords + 1;
          }
        }
      }
      assert records[..|records|] == records;
      if |toCommit| > 0 {
        var ok := outside.CommitRecords(toCommit);
        if !ok {
          failedRecords := failedRecords + |toCommit|;
        }
      }
    }
  }

  /** A result counted from the start of the loop, after `n` retries. */
  function Resumed(d: Done, n: nat): Done {
    d.(retried := d.retried + n)
  }
}
