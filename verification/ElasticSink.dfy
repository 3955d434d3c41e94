/**
 * The Elasticsearch sink (internal/sink/elastic/elastic.go): a bounded channel, a fixed-capacity batch
 * reused in place, flushed when full, on a tick, or on shutdown, and bulk writes with bounded retry.
 */
module ElasticSink {
  import opened Basics
  import opened Strings
  import opened Domain
  import opened ElasticIndex

  const RESULT_CHAN_SIZE := 50
  const BATCH_SIZE := 100
  const RETRIES := 5

  // ----- the request body -------------------------------------------------------------------

  /** How headers (from a document ID) and documents are rendered; None is a marshalling error. */
  datatype Renderer = Renderer(header: string -> Option<string>, document: PolicyValidation -> Option<string>)

  predicate Renders(item: PolicyValidation, mode: string, render: Renderer) {
    render.header(DocId(item, mode)).Some? && render.document(item).Some?
  }

  ghost predicate AllRender(items: seq<PolicyValidation>, mode: string, render: Renderer) {
    forall i :: 0 <= i < |items| ==> Renders(items[i], mode, render)
  }

  /** The header and document lines of a batch. */
  function BodyLines(items: seq<PolicyValidation>, mode: string, render: Renderer): seq<string>
    requires forall i :: 0 <= i < |items| ==> Renders(items[i], mode, render)
  {
    if items == [] then []
    else
      var last := items[|items| - 1];
      assert Renders(last, mode, render);
      BodyLines(items[..|items| - 1], mode, render)
      + [render.header(DocId(last, mode)).value, render.document(last).value]
  }

  /** For each result its header line and its document line. */
  lemma {:induction false} BodyLinesAt(items: seq<PolicyValidation>, mode: string, render: Renderer, i: nat)
    requires AllRender(items, mode, render) && i < |items|
    ensures |BodyLines(items, mode, render)| == 2 * |items|
    ensures Renders(items[i], mode, render)
    ensures BodyLines(items, mode, render)[2 * i] == render.header(DocId(items[i], mode)).value
    ensures BodyLines(items, mode, render)[2 * i + 1] == render.document(items[i]).value
  {
    var n := |items| - 1;
    if n > 0 {
      BodyLinesAt(items[..n], mode, render, if i < n then i else 0);
    }
  }

  /** Every line followed by a newline. */
  function Terminated(lines: seq<string>): string {
    if lines == [] then "" else Terminated(lines[..|lines| - 1]) + lines[|lines| - 1] + "\n"
  }

  method CreateIndexBody(items: seq<PolicyValidation>, mode: string, render: Renderer) returns (body: Option<string>)
    ensures body.Some? <==> AllRender(items, mode, render)
    ensures body.Some? ==> body.value == Terminated(BodyLines(items, mode, render))
  {
    var bytes := "";
    for i := 0 to |items|
      invariant AllRender(items[..i], mode, render)
      invariant bytes == Terminated(BodyLines(items[..i], mode, render))
    {
      var item := items[i];
      var header := render.header(DocId(item, mode));
      if header.None? {
        assert !Renders(items[i], mode, render);
        return None;
      }
      var document := render.document(item);
      if document.None? {
        assert !Renders(items[i], mode, render);
        return None;
      }
      assert items[..i + 1][..i] == items[..i];
      var lines := [header.value, document.value];
      TerminatedTwo(BodyLines(items[..i], mode, render), header.value, document.value);
      bytes := bytes + header.value + "\n" + document.value + "\n";
    }
    assert items[..|items|] == items;
    return Some(bytes);
  }

  lemma TerminatedTwo(lines: seq<string>, a: string, b: string)
    ensures Terminated(lines + [a, b]) == Terminated(lines) + a + "\n" + b + "\n"
  {
    assert (lines + [a, b])[..|lines| + 1] == lines + [a];
    assert (lines + [a])[..|lines|] == lines;
  }

  lemma {:induction false} TerminatedJoin(lines: seq<string>)
    ensures Terminated(lines) == Join(lines + [""], '\n')
  {
    if lines != [] {
      var front, last := lines[..|lines| - 1], lines[|lines| - 1];
      TerminatedJoin(front);
      JoinTail(front, last, '\n');
      assert front + [last] + [""] == lines + [""];
    }
  }

  lemma {:induction false} JoinTail(front: seq<string>, last: string, sep: char)
    ensures Join(front + [last] + [""], sep) == Join(front + [""], sep) + last + [sep]
  {
    if front == [] {
      assert ([last] + [""])[1..] == [""];
      assert Join([last] + [""], sep) == last + [sep] + "";
      assert [] + [last] + [""] == [last] + [""];
      assert [] + [""] == [""];
    } else {
      JoinTail(front[1..], last, sep);
      assert (front + [last] + [""])[1..] == front[1..] + [last] + [""];
      assert (front + [""])[1..] == front[1..] + [""];
    }
  }

  /** The body frames the batch: if no rendering holds a newline, its lines are the headers and documents in order. */
  lemma BodyIsFramed(items: seq<PolicyValidation>, mode: string, render: Renderer)
    requires AllRender(items, mode, render) && Free(BodyLines(items, mode, render), '\n')
    ensures Split(Terminated(BodyLines(items, mode, render)), '\n') == BodyLines(items, mode, render) + [""]
  {
    TerminatedJoin(BodyLines(items, mode, render));
    SplitJoin(BodyLines(items, mode, render) + [""], '\n');
  }

  // ----- the sink ---------------------------------------------------------------------------

  /** How the server meets one bulk request: it accepts it, or it fails having applied only some items. */
  datatype Reply = Accepted | Failed(applied: set<nat>)

  /** One turn of the environment or of the event loop. An operation that would block does nothing. */
  datatype Turn = Produce(item: PolicyValidation) | Receive | Tick | Cancel

  /** What becomes of accepted results: in the channel, in the batch, or handed to writeBatch, oldest first. */
  datatype Flow = Flow(
    accepted: seq<PolicyValidation>, channel: seq<PolicyValidation>, batch: seq<PolicyValidation>,
    flushed: seq<seq<PolicyValidation>>, stopped: bool)

  /** The batch handed over, unless it is empty. */
  function HandedOver(f: Flow): seq<seq<PolicyValidation>> {
    if f.batch == [] then f.flushed else f.flushed + [f.batch]
  }

  function AfterTurn(f: Flow, turn: Turn): Flow {
    if f.stopped then f
    else match turn
      case Produce(item) =>
        if |f.channel| < RESULT_CHAN_SIZE then f.(accepted := f.accepted + [item], channel := f.channel + [item]) else f
      case Receive =>
        if f.channel == [] then f
        else
          var g := f.(channel := f.channel[1..], batch := f.batch + [f.channel[0]]);
          if |g.batch| == BATCH_SIZE then g.(batch := [], flushed := HandedOver(g)) else g
      case Tick => f.(batch := [], flushed := HandedOver(f))
      case Cancel => f.(flushed := HandedOver(f), stopped := true)
  }

  function AfterTurns(f: Flow, turns: seq<Turn>): Flow {
    if turns == [] then f else AfterTurn(AfterTurns(f, turns[..|turns| - 1]), turns[|turns| - 1])
  }

  lemma {:induction false} StoppedStays(f: Flow, turns: seq<Turn>, i: nat)
    requires i <= |turns| && AfterTurns(f, turns[..i]).stopped
    ensures AfterTurns(f, turns) == AfterTurns(f, turns[..i])
    decreases |turns| - i
  {
    if i == |turns| {
      assert turns[..i] == turns;
    } else {
      assert turns[..i + 1][..i] == turns[..i];
      StoppedStays(f, turns, i + 1);
    }
  }

  const NOTHING_YET := Flow([], [], [], [], false)

  /**
   * Nothing is lost, repeated or reordered, and sizes are within bounds. After shutdown the batch has been handed over.
   */
  ghost predicate Conserved(f: Flow) {
    && f.accepted == Flatten(f.flushed) + (if f.stopped then [] else f.batch) + f.channel
    && |f.batch| < 100 && |f.channel| <= 50
    && forall i :: 0 <= i < |f.flushed| ==> 1 <= |f.flushed[i]| <= 100
  }

  lemma TurnConserves(f: Flow, turn: Turn)
    requires Conserved(f)
    ensures Conserved(AfterTurn(f, turn))
  {
    hide Flatten;
    if !f.stopped {
      match turn
      case Produce(item) =>
      case Receive =>
        if f.channel != [] {
          var batch := f.batch + [f.channel[0]];
          assert f.batch + f.channel == batch + f.channel[1..];
          FlattenSnoc(f.flushed, batch);
        }
      case Tick => FlattenSnoc(f.flushed, f.batch);
      case Cancel => FlattenSnoc(f.flushed, f.batch);
    }
  }

  // ----- progress ---------------------------------------------------------------------------

  lemma Handed(f: Flow)
    ensures Flatten(HandedOver(f)) == Flatten(f.flushed) + f.batch
  {
    if f.batch == [] {
      assert Flatten(f.flushed) + [] == Flatten(f.flushed);
    } else {
      FlattenSnoc(f.flushed, f.batch);
    }
  }

  /** A tick hands the whole batch over and leaves it empty. */
  lemma TickFlushes(f: Flow)
    requires !f.stopped
    ensures var g := AfterTurn(f, Tick);
      g.batch == [] && Flatten(g.flushed) == Flatten(f.flushed) + f.batch
      && g.channel == f.channel && g.accepted == f.accepted && !g.stopped
  {
    Handed(f);
  }

  /** So does shutting down, after which nothing happens any more. */
  lemma CancelFlushes(f: Flow, turn: Turn)
    requires !f.stopped
    ensures var g := AfterTurn(f, Cancel);
      g.stopped && Flatten(g.flushed) == Flatten(f.flushed) + f.batch && g.channel == f.channel
      && g.accepted == f.accepted && AfterTurn(g, turn) == g
  {
    Handed(f);
  }

  /** The oldest waiting result goes to the end of the batch; a batch of 100 is handed over at once. */
  lemma ReceiveMoves(f: Flow)
    requires !f.stopped && f.channel != []
    ensures var g, batch := AfterTurn(f, Receive), f.batch + [f.channel[0]];
      && g.channel == f.channel[1..] && g.accepted == f.accepted && !g.stopped
      && (|batch| == 100 ==> g.batch == [] && g.flushed == f.flushed + [batch])
      && (|batch| != 100 ==> g.batch == batch && g.flushed == f.flushed)
  {
  }

  /** With fewer than 50 results waiting, one more is accepted; with 50 the sender waits. */
  lemma ProduceAppends(f: Flow, item: PolicyValidation)
    requires !f.stopped
    ensures var g := AfterTurn(f, Turn.Produce(item));
      if |f.channel| < 50 then g == f.(accepted := f.accepted + [item], channel := f.channel + [item]) else g == f
  {
  }

  /** What has left the channel, in order. */
  function Taken(f: Flow): seq<PolicyValidation> { Flatten(f.flushed) + f.batch }

  lemma TurnTakes(f: Flow, turn: Turn)
    requires !f.stopped && turn != Cancel
    ensures Taken(f) <= Taken(AfterTurn(f, turn)) && !AfterTurn(f, turn).stopped
    ensures turn == Receive && f.channel != [] ==> Taken(AfterTurn(f, turn)) == Taken(f) + [f.channel[0]]
  {
    hide Flatten;
    if turn.Receive? && f.channel != [] {
      Handed(f.(channel := f.channel[1..], batch := f.batch + [f.channel[0]]));
      assert Taken(f) + [f.channel[0]] == Flatten(f.flushed) + (f.batch + [f.channel[0]]);
      assert Flatten(f.flushed) + (f.batch + [f.channel[0]]) + [] == Taken(f) + [f.channel[0]];
    } else if turn.Tick? {
      Handed(f);
      assert Taken(f) + [] == Taken(f);
    }
  }

  lemma {:induction false} TurnsTake(f: Flow, turns: seq<Turn>)
    requires !f.stopped && Cancel !in turns
    ensures Taken(f) <= Taken(AfterTurns(f, turns)) && !AfterTurns(f, turns).stopped
  {
    if turns != [] {
      var front, last := turns[..|turns| - 1], turns[|turns| - 1];
      assert turns == front + [last];
      TurnsTake(f, front);
      TurnTakes(AfterTurns(f, front), last);
    }
  }

  /**
   * A result that is received is handed over, in its place, by the next tick or by shutdown, whatever
   * happens in between.
   */
  lemma ReceivedIsFlushed(f: Flow, turns: seq<Turn>, last: Turn)
    requires !f.stopped && f.channel != [] && Cancel !in turns && (last == Tick || last == Cancel)
    ensures var g := AfterTurn(AfterTurns(AfterTurn(f, Receive), turns), last);
      Flatten(f.flushed) + f.batch + [f.channel[0]] <= Flatten(g.flushed)
  {
    TurnTakes(f, Receive);
    TurnsTake(AfterTurn(f, Receive), turns);
    var g := AfterTurns(AfterTurn(f, Receive), turns);
    hide AfterTurns;
    Handed(g);
  }

  // ----- conservation -----------------------------------------------------------------------

  /** After any turns, in any order. */
  lemma {:induction false} RunConserves(turns: seq<Turn>)
    ensures Conserved(AfterTurns(NOTHING_YET, turns))
  {
    if turns != [] {
      RunConserves(turns[..|turns| - 1]);
      TurnConserves(AfterTurns(NOTHING_YET, turns[..|turns| - 1]), turns[|turns| - 1]);
    }
  }

  /** The server accepts one of the next five requests. */
  ghost predicate AcceptsSoon(reply: nat -> Reply, r: nat) {
    exists k :: r <= k < r + RETRIES && reply(k).Accepted?
  }

  class ElasticSearchSink {
    var policyValidationChan: seq<PolicyValidation>
    var policyValidationsBatch: array<PolicyValidation>
    var len: nat
    const insertionMode: string
    const render: Renderer
    const reply: nat -> Reply
    /** The remote index and the number of bulk requests made to it. */
    var index: Index
    var requests: nat
    /** Results accepted by Write, and the batches handed to writeBatch, oldest first. */
    ghost var accepted: seq<PolicyValidation>
    ghost var flushed: seq<seq<PolicyValidation>>
    /** Some batch was given up. */
    ghost var lost: bool

    /** Nothing is lost or reordered: accepted results are in a flushed batch, the current batch or the channel. */
    ghost predicate Accounted()
      reads this, policyValidationsBatch
    {
      && policyValidationsBatch.Length == BATCH_SIZE
      && len <= BATCH_SIZE
      && |policyValidationChan| <= RESULT_CHAN_SIZE
      && accepted == Flatten(flushed) + policyValidationsBatch[..len] + policyValidationChan
      && (forall i :: 0 <= i < |flushed| ==> 1 <= |flushed[i]| <= BATCH_SIZE)
      && (!lost ==> index == PutAll(map[], Flatten(flushed), insertionMode))
    }

    ghost function View(stopped: bool): Flow
      requires len <= policyValidationsBatch.Length
      reads this, policyValidationsBatch
    {
      Flow(accepted, policyValidationChan, policyValidationsBatch[..len], flushed, stopped)
    }

    /** Everything renders, and of any five successive requests the server accepts one. */
    ghost predicate Reliable() {
      (forall item :: Renders(item, insertionMode, render)) && forall r: nat :: AcceptsSoon(reply, r)
    }

    /** What holds whenever the event loop waits. */
    ghost predicate Valid()
      reads this, policyValidationsBatch
    {
      Accounted() && len < BATCH_SIZE
    }

    constructor (insertionMode: string, render: Renderer, reply: nat -> Reply)
      ensures Valid() && fresh(policyValidationsBatch)
      ensures accepted == [] && flushed == [] && !lost && index == map[] && requests == 0
      ensures this.insertionMode == insertionMode && this.render == render && this.reply == reply
    {
      policyValidationChan := [];
      policyValidationsBatch := new PolicyValidation[BATCH_SIZE];
      len := 0;
      this.insertionMode := insertionMode;
      this.render := render;
      this.reply := reply;
      index := map[];
      requests := 0;
      accepted, flushed, lost := [], [], false;
    }

    /**
     * Sends the batch at most five times, stopping at the first request the server accepts. Accepted
     * batches are in the index exactly once, whatever earlier attempts did.
     */
    method WriteBatch(items: seq<PolicyValidation>) returns (written: bool)
      modifies this`index, this`requests
      ensures requests - old(requests) <= 5
      ensures written <==> AllRender(items, insertionMode, render) && AcceptsSoon(reply, old(requests))
      ensures written ==> requests > old(requests) && reply(requests - 1).Accepted?
      ensures written ==> index == PutAll(old(index), items, insertionMode)
      ensures forall r :: old(requests) <= r < (if written then requests - 1 else requests) ==> reply(r).Failed?
      ensures !written ==>
        requests == old(requests) + (if AllRender(items, insertionMode, render) then RETRIES else 0)
      ensures !written ==> forall key :: LastOf(items, key, insertionMode).None? ==>
        At(index, key) == At(old(index), key)
    {
      for i := 0 to RETRIES
        invariant requests == old(requests) + (if AllRender(items, insertionMode, render) then i else 0)
        invariant forall r :: old(requests) <= r < requests ==> reply(r).Failed?
        invariant PutAll(index, items, insertionMode) == PutAll(old(index), items, insertionMode)
        invariant forall key :: LastOf(items, key, insertionMode).None? ==> At(index, key) == At(old(index), key)
      {
        var body := CreateIndexBody(items, insertionMode, render);
        if body.None? {
          continue;
        }
        var res := reply(requests);
        requests := requests + 1;
        if res.Failed? {
          RetryIsInvisible(index, items, res.applied, insertionMode);
          forall key | LastOf(items, key, insertionMode).None?
            ensures At(PutSome(index, items, res.applied, insertionMode), key) == At(index, key)
          {
            PutSomeAt(index, items, res.applied, insertionMode, key);
          }
          index := PutSome(index, items, res.applied, insertionMode);
          continue;
        }
        index := PutAll(index, items, insertionMode);
        return true;
      }
      return false;
    }

    /** One send of Write; the sender blocks, and nothing happens, while the channel is full. */
    method Produce(item: PolicyValidation) returns (sent: bool)
      requires Valid()
      modifies this`policyValidationChan, this`accepted
      ensures Valid() && sent == (|old(policyValidationChan)| < RESULT_CHAN_SIZE)
      ensures View(false) == AfterTurn(old(View(false)), Turn.Produce(item))
    {
      sent := |policyValidationChan| < RESULT_CHAN_SIZE;
      if sent {
        policyValidationChan := policyValidationChan + [item];
        accepted := accepted + [item];
      }
    }

    /** Everything accepted has been handed to WriteBatch, but for what is in the channel. */
    ghost predicate Drained()
      reads this
    {
      && accepted == Flatten(flushed) + policyValidationChan
      && |policyValidationChan| <= RESULT_CHAN_SIZE
      && (forall i :: 0 <= i < |flushed| ==> 1 <= |flushed[i]| <= BATCH_SIZE)
      && (!lost ==> index == PutAll(map[], Flatten(flushed), insertionMode))
    }

    /** Hands the batch to WriteBatch, leaving it in place. */
    method WriteOut()
      requires Accounted() && len > 0
      modifies this`index, this`requests, this`flushed, this`lost
      ensures Drained()
      ensures flushed == old(flushed) + [policyValidationsBatch[..len]]
      ensures var rendered := AllRender(policyValidationsBatch[..len], insertionMode, render);
        var delivered := rendered && AcceptsSoon(reply, old(requests));
        lost == (old(lost) || !delivered)
      ensures Reliable() && !old(lost) ==> !lost
    {
      hide Flatten, PutAll, LastOf, At, AcceptsSoon;
      var items := policyValidationsBatch[..len];
      ghost var before, all := flushed, Flatten(flushed);
      FlattenSnoc(before, items);
      var written := WriteBatch(items);
      flushed := before + [items];
      if written {
        PutAllConcat(map[], all, items, insertionMode);
      } else {
        lost := true;
      }
    }

    /** Hands the batch to WriteBatch and truncates it in place. */
    method Flush()
      requires Accounted() && len > 0
      modifies this`len, this`index, this`requests, this`flushed, this`lost
      ensures Valid() && len == 0
      ensures flushed == old(flushed) + [policyValidationsBatch[..old(len)]]
      ensures Reliable() && !old(lost) ==> !lost
    {
      hide Flatten, PutAll, Reliable, AllRender, AcceptsSoon;
      WriteOut();
      len := 0;
      assert policyValidationsBatch[..len] == [];
      assert Flatten(flushed) + [] == Flatten(flushed);
    }

    /** Appends to the batch, in place: its capacity is never exceeded. */
    method Append(result: PolicyValidation)
      requires Valid() && policyValidationChan != [] && policyValidationChan[0] == result
      modifies this`policyValidationChan, this`len, policyValidationsBatch
      ensures Accounted() && len == old(len) + 1
      ensures policyValidationChan == old(policyValidationChan)[1..]
      ensures policyValidationsBatch[..len] == old(policyValidationsBatch[..len]) + [result]
    {
      hide Flatten, PutAll;
      ghost var batch, queued := policyValidationsBatch[..len], policyValidationChan;
      policyValidationChan := policyValidationChan[1..];
      policyValidationsBatch[len] := result;
      len := len + 1;
      assert policyValidationsBatch[..len] == batch + [result];
      assert batch + queued == policyValidationsBatch[..len] + policyValidationChan;
    }

    /** The select case for a result: append it, flush when the batch has reached its capacity. */
    method Receive()
      requires Valid()
      modifies this`policyValidationChan, this`len, this`index, this`requests, this`flushed, this`lost,
        policyValidationsBatch
      ensures Valid()
      ensures View(false) == AfterTurn(old(View(false)), Turn.Receive)
      ensures Reliable() && !old(lost) ==> !lost
    {
      hide Reliable, Flatten, PutAll;
      if policyValidationChan == [] {
        return;
      }
      Append(policyValidationChan[0]);
      if len == policyValidationsBatch.Length {
        Flush();
      }
    }

    /** The select case for the ticker: flush what there is. */
    method Tick()
      requires Valid()
      modifies this`len, this`index, this`requests, this`flushed, this`lost
      ensures Valid()
      ensures View(false) == AfterTurn(old(View(false)), Turn.Tick)
      ensures Reliable() && !old(lost) ==> !lost
    {
      if len > 0 {
        Flush();
      }
    }

    /** The select case for shutdown: flush what there is; the loop then returns. */
    method Cancel()
      requires Valid()
      modifies this`index, this`requests, this`flushed, this`lost
      ensures Drained()
      ensures View(true) == AfterTurn(old(View(false)), Turn.Cancel)
      ensures Reliable() && !old(lost) ==> !lost
    {
      hide Flatten, PutAll, Reliable, AllRender, AcceptsSoon;
      if len > 0 {
        WriteOut();
      } else {
        assert policyValidationsBatch[..len] == [];
        assert Flatten(flushed) + [] == Flatten(flushed);
      }
    }

    /** While no batch has been given up, and keys cannot be mixed up, the index holds the last result of every case. */
    lemma IndexIsKept()
      requires !lost ==> index == PutAll(map[], Flatten(flushed), insertionMode)
      ensures !lost && insertionMode == UPSERT && AllSeparable(Flatten(flushed)) ==>
        HoldsLastPerCase(index, Flatten(flushed))
    {
      if !lost && insertionMode == UPSERT && AllSeparable(Flatten(flushed)) {
        IndexHoldsLastPerCase(Flatten(flushed));
      }
    }

    /**
     * The event loop, interleaved with producers in any way. If it is shut down, everything accepted
     * has been handed to WriteBatch, in order, but for what is left in the channel.
     */
    method Start(turns: seq<Turn>) returns (stopped: bool)
      requires Valid()
      modifies this, policyValidationsBatch
      ensures policyValidationsBatch == old(policyValidationsBatch) && len <= policyValidationsBatch.Length
      ensures View(stopped) == AfterTurns(old(View(false)), turns)
      ensures if stopped then Drained() else Valid()
      ensures Reliable() && !old(lost) ==> !lost
      ensures !lost && insertionMode == UPSERT && AllSeparable(Flatten(flushed)) ==>
        HoldsLastPerCase(index, Flatten(flushed))
    {
      hide Reliable, AfterTurn, Flatten, PutAll, AllSeparable, HoldsLastPerCase;
      ghost var before := View(false);
      for i := 0 to |turns|
        invariant Valid() && policyValidationsBatch == old(policyValidationsBatch)
        invariant View(false) == AfterTurns(before, turns[..i])
        invariant Reliable() && !old(lost) ==> !lost
      {
        assert turns[..i + 1][..i] == turns[..i];
        match turns[i]
        case Produce(item) =>
          var _ := Produce(item);
        case Receive => Receive();
        case Tick => Tick();
        case Cancel =>
          Cancel();
          StoppedStays(before, turns, i + 1);
          IndexIsKept();
          return true;
      }
      assert turns[..|turns|] == turns;
      IndexIsKept();
      return false;
    }
  }
}
