/** The consumer (TextRecognize): receive the keys of car images one at a time
    from the FIFO queue, read the words in each image, record them under the key,
    delete the message, and stop at the sentinel. */
module Consumer {
  import opened Sqs

  /** The fragment type whose text is kept. */
  const Word := "WORD"

  /** One fragment found by the text-detection service and its type ("WORD" or "LINE"). */
  datatype TextDetection = TextDetection(detectedText: string, textType: string)

  /** The text-detection service: the fragments found in image `key` by the
      `n`-th detectText call of the run (counted from 0). */
  type TextService = (string, nat) -> seq<TextDetection>

  /** What one fragment adds to the text: a word followed by a space, or nothing. */
  function Piece(d: TextDetection): (p: string)
    ensures p != "" <==> d.textType == Word
    ensures p != "" ==> p[|p| - 1] == ' '
  {
    if d.textType == Word then d.detectedText + " " else ""
  }

  /** The text recorded for an image: its WORD fragments, in the order the
      service returned them, each followed by one space. */
  function WordText(ds: seq<TextDetection>): (text: string)
  {
    if ds == [] then "" else WordText(ds[..|ds| - 1]) + Piece(ds[|ds| - 1])
  }

  /** One more fragment adds its piece at the end. */
  lemma WordTextSnoc(ds: seq<TextDetection>, d: TextDetection)
    ensures WordText(ds + [d]) == WordText(ds) + Piece(d)
  {
    var t := ds + [d];
    assert t[..|t| - 1] == ds;
  }

  lemma {:induction false} WordTextAppend(a: seq<TextDetection>, b: seq<TextDetection>)
    ensures WordText(a + b) == WordText(a) + WordText(b)
    decreases |b|
  {
    if b == [] {
      assert a + b == a;
    } else {
      var b', last := b[..|b| - 1], b[|b| - 1];
      calc {
        WordText(a + b);
      == { assert a + b == (a + b') + [last]; WordTextSnoc(a + b', last); }
        WordText(a + b') + Piece(last);
      == { WordTextAppend(a, b'); }
        (WordText(a) + WordText(b')) + Piece(last);
      ==
        WordText(a) + (WordText(b') + Piece(last));
      == { assert b == b' + [last]; WordTextSnoc(b', last); }
        WordText(a) + WordText(b);
      }
    }
  }

  /** The text is empty exactly when no fragment is a WORD. */
  lemma {:induction false} WordTextEmpty(ds: seq<TextDetection>)
    ensures WordText(ds) == "" <==> forall i :: 0 <= i < |ds| ==> ds[i].textType != Word
  {
    if ds != [] {
      var init := ds[..|ds| - 1];
      var last := ds[|ds| - 1];
      WordTextEmpty(init);
      assert forall i :: 0 <= i < |init| ==> init[i] == ds[i];
      assert WordText(ds) == WordText(init) + Piece(last);
      assert |WordText(ds)| == |WordText(init)| + |Piece(last)|;
    }
  }

  /** When there is a WORD, the text ends with the space appended after the last one. */
  lemma {:induction false} WordTextTrailingSpace(ds: seq<TextDetection>)
    requires exists i :: 0 <= i < |ds| && ds[i].textType == Word
    ensures |WordText(ds)| > 0 && WordText(ds)[|WordText(ds)| - 1] == ' '
  {
    var init := ds[..|ds| - 1];
    if ds[|ds| - 1].textType != Word {
      var i :| 0 <= i < |ds| && ds[i].textType == Word;
      assert init[i] == ds[i];
      WordTextTrailingSpace(init);
    }
  }

  lemma WordTextStep(ds: seq<TextDetection>, j: nat)
    requires j < |ds|
    ensures WordText(ds[..j + 1]) == WordText(ds[..j]) + Piece(ds[j])
  {
    assert ds[..j + 1][..j] == ds[..j];
  }

  /** The StringBuilder loop: append each WORD's text, then a space. */
  method BuildText(ds: seq<TextDetection>) returns (text: string)
    ensures text == WordText(ds)
  {
    text := "";
    for j := 0 to |ds|
      invariant text == WordText(ds[..j])
    {
      WordTextStep(ds, j);
      if ds[j].textType == Word {
        ghost var before := text;
        text := text + ds[j].detectedText;
        text := text + " ";
        assert text == before + (ds[j].detectedText + " ");
      }
    }
    assert ds[..|ds|] == ds;
  }

  /** The position of the first sentinel body, or |bs| when there is none. */
  function FirstSentinel(bs: seq<string>): (s: nat)
    ensures s <= |bs|
    ensures forall i :: 0 <= i < s ==> bs[i] != Sentinel
    ensures s < |bs| ==> bs[s] == Sentinel
  {
    if bs == [] then 0
    else if bs[0] == Sentinel then 0
    else 1 + FirstSentinel(bs[1..])
  }

  /** The number of receives that the service answers with a message when one is waiting. */
  function CountTrue(polls: seq<bool>): nat
  {
    if polls == [] then 0 else CountTrue(polls[..|polls| - 1]) + (if polls[|polls| - 1] then 1 else 0)
  }

  lemma {:induction false} CountTruePrefix(polls: seq<bool>, i: nat)
    requires i <= |polls|
    ensures CountTrue(polls[..i]) <= CountTrue(polls)
    decreases |polls| - i
  {
    if i < |polls| {
      var p := polls[..i + 1];
      assert p[..|p| - 1] == polls[..i];
      CountTruePrefix(polls, i + 1);
    } else {
      assert polls[..i] == polls;
    }
  }

  lemma CountStep(polls: seq<bool>, i: nat)
    requires i < |polls|
    ensures CountTrue(polls[..i + 1]) == CountTrue(polls[..i]) + if polls[i] then 1 else 0
  {
    assert polls[..i + 1][..i] == polls[..i];
  }

  function Min(a: nat, b: nat): nat
  {
    if a <= b then a else b
  }

  /** `outputs` after the bodies `bs` were processed in order: the n-th body is
      stored under itself with the words of the n-th detectText call, a later
      body overwriting an earlier equal one. */
  function Report(bs: seq<string>, detect: TextService): (outputs: map<string, string>)
    ensures forall k :: k in outputs ==> k in bs
    ensures bs != [] ==> var last := |bs| - 1; bs[last] in outputs && outputs[bs[last]] == WordText(detect(bs[last], last))
  {
    if bs == [] then map[]
    else Report(bs[..|bs| - 1], detect)[bs[|bs| - 1] := WordText(detect(bs[|bs| - 1], |bs| - 1))]
  }

  /** The position of the last occurrence of `k` in `bs`. */
  function LastIndex(bs: seq<string>, k: string): (i: nat)
    requires k in bs
    ensures i < |bs| && bs[i] == k
    ensures forall j :: i < j < |bs| ==> bs[j] != k
  {
    if bs[|bs| - 1] == k then |bs| - 1 else LastIndex(bs[..|bs| - 1], k)
  }

  /** One entry per distinct body, holding the words of the last call made for it. */
  lemma {:induction false} ReportEntries(bs: seq<string>, detect: TextService)
    ensures forall k :: k in Report(bs, detect) <==> k in bs
    ensures forall k :: k in bs ==> Report(bs, detect)[k] == WordText(detect(k, LastIndex(bs, k)))
  {
    if bs != [] {
      var init := bs[..|bs| - 1];
      ReportEntries(init, detect);
      assert bs == init + [bs[|bs| - 1]];
    }
  }

  /** The HashMap the consumer stores its results in. */
  class StringMap {
    var entries: map<string, string>
    /** The keys put so far, in order. */
    ghost var puts: seq<string>

    constructor ()
      ensures entries == map[] && puts == []
    {
      entries, puts := map[], [];
    }

    /** put: `key` now maps to `value`, replacing any earlier value. */
    method Put(key: string, value: string)
      modifies this
      ensures entries == old(entries)[key := value]
      ensures puts == old(puts) + [key]
    {
      entries := entries[key := value];
      puts := puts + [key];
    }
  }

  /** Each put so far was followed by the delete of its message: the last |puts|
      deletions are of messages whose bodies are `puts`, in order. */
  ghost predicate Paired(puts: seq<string>, deleted: seq<Message>)
  {
    |puts| <= |deleted| && Bodies(deleted[|deleted| - |puts|..]) == puts
  }

  /** A message with body `body` is stored and not yet deleted: the last put is
      of `body`, and every put before it is paired with its delete. */
  ghost predicate StoredNotDeleted(puts: seq<string>, deleted: seq<Message>, body: string)
  {
    puts != [] && puts[|puts| - 1] == body && Paired(puts[..|puts| - 1], deleted)
  }

  /** Deleting the stored message pairs its put with the delete. */
  lemma PairedStep(puts: seq<string>, deleted: seq<Message>, m: Message)
    requires StoredNotDeleted(puts, deleted, m.body)
    ensures Paired(puts, deleted + [m])
  {
    var init := puts[..|puts| - 1];
    var d := deleted + [m];
    var tail := deleted[|deleted| - |init|..];
    assert d[|d| - |puts|..] == tail + [m];
    BodiesConcat(tail, [m]);
    assert puts == init + [m.body];
  }

  /** The body of the receive loop for a message that is not the sentinel: read
      the words of the image the received (oldest) message names (the `call`-th
      detectText call), put them in `outputs` under the key, then delete the
      message. */
  method ProcessMessage(queue: FifoQueue, outputs: StringMap, detect: TextService, message: Message, call: nat)
    requires queue.Valid() && queue.messages != [] && message == queue.messages[0]
    requires Paired(outputs.puts, queue.deleted)
    modifies queue, outputs
    ensures queue.Valid()
    ensures outputs.entries == old(outputs.entries)[message.body := WordText(detect(message.body, call))]
    ensures outputs.puts == old(outputs.puts) + [message.body]
    ensures queue.messages == old(queue.messages)[1..]
    ensures queue.deleted == old(queue.deleted) + [message]
    ensures queue.nextSequenceNumber == old(queue.nextSequenceNumber)
    ensures Paired(outputs.puts, queue.deleted)
  {
    var text := BuildText(detect(message.body, call));
    outputs.Put(message.body, text);
    assert outputs.puts[..|outputs.puts| - 1] == old(outputs.puts);
    DeleteProcessed(queue, outputs, message);
  }

  /** The delete that ends an iteration. It may only happen once the message's
      text is in `outputs` and its put is the latest one not yet followed by a delete. */
  method DeleteProcessed(queue: FifoQueue, outputs: StringMap, message: Message)
    requires queue.Valid() && queue.messages != [] && message == queue.messages[0]
    requires message.body in outputs.entries
    requires StoredNotDeleted(outputs.puts, queue.deleted, message.body)
    modifies queue
    ensures queue.Valid()
    ensures queue.messages == old(queue.messages)[1..]
    ensures queue.deleted == old(queue.deleted) + [message]
    ensures queue.nextSequenceNumber == old(queue.nextSequenceNumber)
    ensures Paired(outputs.puts, queue.deleted)
  {
    ghost var before := queue.deleted;
    WithoutHead(queue.messages);
    queue.DeleteMessage(message.sequenceNumber);
    PairedStep(outputs.puts, before, message);
  }

  lemma ReportStep(bs: seq<string>, n: nat, detect: TextService)
    requires n < |bs|
    ensures Report(bs[..n + 1], detect) == Report(bs[..n], detect)[bs[n] := WordText(detect(bs[n], n))]
  {
    assert bs[..n + 1][..n] == bs[..n];
  }

  /** The state of the receive loop after `n` messages of `start` have been
      processed: those are deleted, in order, their texts are in `outputs`, and
      each put was followed by its delete. */
  ghost predicate Drained(start: seq<Message>, log: seq<Message>, queue: FifoQueue, outputs: StringMap, detect: TextService, n: nat)
    reads queue, outputs
  {
    && n <= |start|
    && queue.Valid()
    && queue.messages == start[n..]
    && queue.deleted == log + start[..n]
    && outputs.entries == Report(Bodies(start)[..n], detect)
    && outputs.puts == Bodies(start)[..n]
  }

  /** In that state each put is followed by its delete, and every body deleted in
      the run is a key of `outputs`. */
  lemma DrainedFacts(start: seq<Message>, log: seq<Message>, detect: TextService, n: nat)
    requires n <= |start|
    ensures Paired(Bodies(start)[..n], log + start[..n])
    ensures forall m :: m in (log + start[..n])[|log|..] ==> m.body in Report(Bodies(start)[..n], detect)
  {
    var bs := Bodies(start);
    var d := log + start[..n];
    assert d[|d| - n..] == start[..n] == d[|log|..];
    assert Bodies(start[..n]) == bs[..n];
    ReportEntries(bs[..n], detect);
    forall m | m in start[..n]
      ensures m.body in bs[..n]
    {
      var i :| 0 <= i < n && start[i] == m;
      assert bs[..n][i] == m.body;
    }
  }

  /** One turn of the receive loop on a message other than the sentinel. */
  method StoreAndDelete(queue: FifoQueue, outputs: StringMap, detect: TextService, message: Message,
                        ghost start: seq<Message>, ghost log: seq<Message>, n: nat)
    requires Drained(start, log, queue, outputs, detect, n) && n < |start| && message == start[n]
    modifies queue, outputs
    ensures Drained(start, log, queue, outputs, detect, n + 1)
    ensures queue.nextSequenceNumber == old(queue.nextSequenceNumber)
  {
    ghost var before := queue.deleted;
    ghost var bs := Bodies(start);
    DrainedFacts(start, log, detect, n);
    ProcessMessage(queue, outputs, detect, message, n);
    DeletedStep(log, before, message, start, n);
    ReportStep(bs, n, detect);
    assert bs[..n + 1] == bs[..n] + [message.body];
    assert start[n + 1..] == start[n..][1..];
  }

  /** One receive of the loop, answered iff `delivers`, after `count` answered
      receives: an empty receive changes nothing, the sentinel stops the loop, and
      any other message is stored and deleted. */
  method Poll(queue: FifoQueue, outputs: StringMap, detect: TextService, delivers: bool,
              ghost start: seq<Message>, ghost log: seq<Message>, processed: nat, ghost count: nat)
    returns (next: nat, stop: bool)
    requires Drained(start, log, queue, outputs, detect, processed)
    requires var s := FirstSentinel(Bodies(start));
             processed == Min(count, s) && (s < |start| ==> count <= s)
    modifies queue, outputs
    ensures var s := FirstSentinel(Bodies(start));
            var answered := count + if delivers then 1 else 0;
            && Drained(start, log, queue, outputs, detect, next)
            && next == Min(answered, s)
            && (stop <==> s < |start| && answered > s)
    ensures queue.nextSequenceNumber == old(queue.nextSequenceNumber)
  {
    var received := queue.ReceiveMessage(delivers);
    if received.None? {
      return processed, false;
    }
    var message := received.value;
    assert processed < |start| && message == start[processed];
    assert Bodies(start)[processed] == message.body;
    if message.body == Sentinel {
      return processed, true;
    }
    StoreAndDelete(queue, outputs, detect, message, start, log, processed);
    return processed + 1, false;
  }

  /** The receive loop. `polls[i]` says whether the i-th receive is answered with
      the oldest waiting message (false: it comes back empty, as a long poll can);
      the real loop polls forever, the model stops after the last poll, and
      `finished` tells whether the sentinel was reached. */
  method Drain(queue: FifoQueue, detect: TextService, polls: seq<bool>)
    returns (outputs: StringMap, finished: bool)
    requires queue.Valid()
    modifies queue
    ensures fresh(outputs) && queue.Valid()
    ensures var bs := Bodies(old(queue.messages));
            var s := FirstSentinel(bs);
            var n := Min(CountTrue(polls), s);
            && (finished <==> s < |bs| && CountTrue(polls) > s)
            && queue.messages == old(queue.messages)[n..]
            && queue.deleted == old(queue.deleted) + old(queue.messages)[..n]
            && outputs.entries == Report(bs[..n], detect)
            && outputs.puts == bs[..n]
    ensures forall m :: m in queue.deleted[|old(queue.deleted)|..] ==> m.body in outputs.entries
    ensures queue.nextSequenceNumber == old(queue.nextSequenceNumber)
  {
    ghost var start, log := queue.messages, queue.deleted;
    ghost var bs := Bodies(start);
    ghost var s := FirstSentinel(bs);
    outputs := new StringMap();
    finished := false;
    assert log[|log|..] == [];
    var processed := 0;
    var i := 0;
    ghost var count := 0;
    while i < |polls|
      invariant 0 <= i <= |polls|
      invariant fresh(outputs)
      invariant count == CountTrue(polls[..i])
      invariant processed == Min(count, s)
      invariant s < |bs| ==> count <= s
      invariant Drained(start, log, queue, outputs, detect, processed)
      invariant queue.nextSequenceNumber == old(queue.nextSequenceNumber)
    {
      CountStep(polls, i);
      var stop;
      processed, stop := Poll(queue, outputs, detect, polls[i], start, log, processed, count);
      count := count + if polls[i] then 1 else 0;
      i := i + 1;
      if stop {
        finished := true;
        CountTruePrefix(polls, i);
        DrainedFacts(start, log, detect, processed);
        return;
      }
    }
    assert polls[..|polls|] == polls;
    DrainedFacts(start, log, detect, processed);
  }

  lemma DeletedStep(log: seq<Message>, before: seq<Message>, message: Message, start: seq<Message>, n: nat)
    requires n < |start| && message == start[n] && before == log + start[..n]
    ensures (before + [message])[|log|..] == before[|log|..] + [message]
    ensures before + [message] == log + start[..n + 1]
  {
    assert start[..n + 1] == start[..n] + [message];
  }

  /** Nothing at or after the sentinel is recorded or deleted. */
  lemma SentinelNotRecorded(ms: seq<Message>, detect: TextService, n: nat)
    requires n <= FirstSentinel(Bodies(ms))
    ensures Sentinel !in Report(Bodies(ms)[..n], detect)
    ensures forall m :: m in ms[..n] ==> m.body != Sentinel
  {
    ReportEntries(Bodies(ms)[..n], detect);
    forall m | m in ms[..n]
      ensures m.body != Sentinel
    {
      var i :| 0 <= i < n && ms[i] == m;
      assert Bodies(ms)[i] == m.body;
    }
  }

  lemma {:induction false} CountTrueAppend(a: seq<bool>, b: seq<bool>)
    ensures CountTrue(a + b) == CountTrue(a) + CountTrue(b)
    decreases |b|
  {
    if b == [] {
      assert a + b == a;
    } else {
      var b' := b[..|b| - 1];
      assert (a + b)[..|a + b| - 1] == a + b';
      CountTrueAppend(a, b');
    }
  }

  /** An empty receive anywhere in the schedule changes nothing the loop computes. */
  lemma EmptyReceiveChangesNothing(polls: seq<bool>, i: nat)
    requires i <= |polls|
    ensures CountTrue(polls[..i] + [false] + polls[i..]) == CountTrue(polls)
  {
    CountTrueAppend(polls[..i] + [false], polls[i..]);
    CountTrueAppend(polls[..i], [false]);
    CountTrueAppend(polls[..i], polls[i..]);
    assert [false][..0] == [];
    assert polls[..i] + polls[i..] == polls;
  }
}
