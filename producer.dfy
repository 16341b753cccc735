/** The producer (CarRecognize): find the car images among the first page of the
    bucket listing and publish their keys, then the sentinel, to the FIFO queue. */
module Producer {
  import opened Sqs
  import opened Backoff
  import opened Classifier

  const QueueName := "car.fifo"
  /** The message group every message is sent under. */
  const QueueGroup := "group1"
  /** The listing asks for at most this many keys. */
  const MaxKeys: nat := 10

  /** The attributes a missing queue is created with. */
  const FifoAttributes: map<string, string> := map["FifoQueue" := "true", "ContentBasedDeduplication" := "true"]

  /** How a run ends: every key handled and the sentinel sent, or the label check
      for `key` rethrew after exhausting its retries. */
  datatype RunOutcome = Completed | Aborted(key: string)

  /** The keys of `s` for which `p` holds, in their order in `s`. */
  function Filter(s: seq<string>, p: string -> bool): (r: seq<string>)
    ensures |r| <= |s|
  {
    if s == [] then []
    else (if p(s[0]) then [s[0]] else []) + Filter(s[1..], p)
  }

  /** Filter keeps exactly the elements that pass the test. */
  lemma {:induction false} FilterMembers(s: seq<string>, p: string -> bool)
    ensures forall x :: x in Filter(s, p) <==> x in s && p(x)
  {
    if s != [] {
      FilterMembers(s[1..], p);
      assert s == [s[0]] + s[1..];
    }
  }

  lemma {:induction false} FilterAppend(a: seq<string>, b: seq<string>, p: string -> bool)
    ensures Filter(a + b, p) == Filter(a, p) + Filter(b, p)
  {
    if a != [] {
      assert (a + b)[0] == a[0] && (a + b)[1..] == a[1..] + b;
      FilterAppend(a[1..], b, p);
      var head := if p(a[0]) then [a[0]] else [];
      assert Filter(a + b, p) == head + (Filter(a[1..], p) + Filter(b, p));
      assert Filter(a, p) == head + Filter(a[1..], p);
    } else {
      assert a + b == b;
    }
  }

  /** The one listing page the producer reads: the first MaxKeys keys of the bucket. */
  function ListPage(bucket: seq<string>): (page: seq<string>)
    ensures |page| == if |bucket| <= MaxKeys then |bucket| else MaxKeys
    ensures page == bucket[..|page|]
    ensures |bucket| <= MaxKeys ==> page == bucket
  {
    if |bucket| <= MaxKeys then bucket else bucket[..MaxKeys]
  }

  /** The label check's verdict for each key (the retry loop's result, without
      the calls and delays). */
  function VerdictOf(service: LabelService): string -> Verdict
  {
    key => ClassifyVerdict(service, key)
  }

  /** The test that decides publication: the label check answered "car". */
  function IsCarKey(verdict: string -> Verdict): string -> bool
  {
    key => verdict(key) == IsCar(true)
  }

  function Matching(keys: seq<string>, verdict: string -> Verdict): seq<string>
  {
    Filter(keys, IsCarKey(verdict))
  }

  /** The position of the first key whose label check gives up, or |keys|. */
  function FirstExhausted(keys: seq<string>, verdict: string -> Verdict): (a: nat)
    ensures a <= |keys|
    ensures forall i :: 0 <= i < a ==> verdict(keys[i]) != GaveUp
    ensures a < |keys| ==> verdict(keys[a]) == GaveUp
  {
    if keys == [] then 0
    else if verdict(keys[0]) == GaveUp then 0
    else 1 + FirstExhausted(keys[1..], verdict)
  }

  /** The bodies the producer sends for the supported keys `keys`, key by key:
      a car key is sent, another key is skipped, a key whose check gives up ends
      the run, and the sentinel follows the last key. */
  function Publications(keys: seq<string>, verdict: string -> Verdict): (ps: seq<string>)
    ensures |ps| <= |keys| + 1
  {
    if keys == [] then [Sentinel]
    else
      match verdict(keys[0])
      case GaveUp => []
      case IsCar(car) => (if car then [keys[0]] else []) + Publications(keys[1..], verdict)
  }

  /** What is published: the car keys in listing order up to the first key whose
      check gives up, and the sentinel only when no check gave up. */
  lemma {:induction false} PublicationsClosedForm(keys: seq<string>, verdict: string -> Verdict)
    ensures var a := FirstExhausted(keys, verdict);
            Publications(keys, verdict) == Matching(keys[..a], verdict) + (if a == |keys| then [Sentinel] else [])
  {
    if keys != [] && verdict(keys[0]) != GaveUp {
      var a := FirstExhausted(keys, verdict);
      var rest := keys[1..];
      PublicationsClosedForm(rest, verdict);
      assert keys[..a] == [keys[0]] + rest[..a - 1];
      MatchingCons(keys[0], rest[..a - 1], verdict);
    }
  }

  lemma MatchingCons(key: string, keys: seq<string>, verdict: string -> Verdict)
    ensures Matching([key] + keys, verdict) ==
            (if verdict(key) == IsCar(true) then [key] else []) + Matching(keys, verdict)
  {
    assert ([key] + keys)[0] == key && ([key] + keys)[1..] == keys;
  }

  /** Only car keys of the listing are published, besides the sentinel. */
  lemma PublicationsAreCarKeys(keys: seq<string>, verdict: string -> Verdict)
    ensures forall k :: k in Publications(keys, verdict) && k != Sentinel ==> k in keys && verdict(k) == IsCar(true)
  {
    PublicationsClosedForm(keys, verdict);
    var a := FirstExhausted(keys, verdict);
    FilterMembers(keys[..a], IsCarKey(verdict));
    assert forall k :: k in keys[..a] ==> k in keys;
  }

  /** Keys that fail the image-type test are never checked and never published:
      every checked key (a prefix of the supported ones) and every published key
      besides the sentinel is a supported key of the page. */
  lemma UnsupportedNeverChecked(page: seq<string>, isSupported: string -> bool, verdict: string -> Verdict, n: nat)
    requires n <= |Filter(page, isSupported)|
    ensures forall k :: k in Filter(page, isSupported)[..n] ==> k in page && isSupported(k)
    ensures forall k :: k in Publications(Filter(page, isSupported), verdict) && k != Sentinel ==>
              k in page && isSupported(k)
  {
    var cands := Filter(page, isSupported);
    FilterMembers(page, isSupported);
    assert forall k :: k in cands[..n] ==> k in cands;
    PublicationsAreCarKeys(cands, verdict);
  }

  /** When no key is the sentinel itself, the sentinel is sent exactly once, as the
      last message, if and only if no label check gave up. */
  lemma SentinelLastExactlyOnce(keys: seq<string>, verdict: string -> Verdict)
    requires Sentinel !in keys
    ensures var ps := Publications(keys, verdict);
            && (Sentinel in ps <==> FirstExhausted(keys, verdict) == |keys|)
            && (Sentinel in ps ==> ps[|ps| - 1] == Sentinel && forall i :: 0 <= i < |ps| - 1 ==> ps[i] != Sentinel)
  {
    PublicationsClosedForm(keys, verdict);
    var a := FirstExhausted(keys, verdict);
    FilterMembers(keys[..a], IsCarKey(verdict));
    var m := Matching(keys[..a], verdict);
    assert forall k :: k in m ==> k in keys;
  }

  /** getQueueUrl: look the queue up, and create it as a FIFO queue with content-based
      deduplication when the look-up throws (`lookupFails` stands for any failure
      of the call itself). Either way the url of "car.fifo" comes back, and the
      queue is created only when it did not exist. */
  method GetQueueUrl(sqs: QueueRegistry, lookupFails: bool) returns (queueUrl: string)
    requires sqs.Valid()
    modifies sqs
    ensures sqs.Valid()
    ensures QueueName in sqs.urls && sqs.urls[QueueName] == queueUrl
    ensures queueUrl in sqs.attributes
    ensures QueueName in old(sqs.urls) ==>
              && queueUrl == old(sqs.urls[QueueName])
              && sqs.urls == old(sqs.urls) && sqs.attributes == old(sqs.attributes)
              && sqs.created == old(sqs.created)
    ensures QueueName !in old(sqs.urls) ==>
              && queueUrl == sqs.endpoint + "/" + QueueName
              && sqs.urls == old(sqs.urls)[QueueName := queueUrl]
              && sqs.attributes == old(sqs.attributes)[queueUrl := FifoAttributes]
              && sqs.created == old(sqs.created) + [QueueName]
  {
    var found := sqs.GetQueueUrl(QueueName, lookupFails);
    match found {
      case Some(url) =>
        queueUrl := url;
      case None =>
        queueUrl := sqs.CreateQueue(QueueName, FifoAttributes);
    }
  }

  /** Two consecutive calls return the same url and create at most one queue,
      whichever of their look-ups fail. */
  method GetQueueUrlTwice(sqs: QueueRegistry, firstFails: bool, secondFails: bool) returns (first: string, second: string)
    requires sqs.Valid()
    modifies sqs
    ensures first == second
    ensures sqs.created == old(sqs.created) || sqs.created == old(sqs.created) + [QueueName]
    ensures QueueName in old(sqs.urls) ==> sqs.created == old(sqs.created)
  {
    first := GetQueueUrl(sqs, firstFails);
    second := GetQueueUrl(sqs, secondFails);
  }

  /** sendMessageToQueue: every message goes under the group QueueGroup. */
  method SendMessageToQueue(queue: FifoQueue, message: string)
    requires queue.Valid()
    modifies queue
    ensures queue.Valid()
    ensures queue.messages == old(queue.messages) + [Message(old(queue.nextSequenceNumber), QueueGroup, message)]
    ensures queue.nextSequenceNumber == old(queue.nextSequenceNumber) + 1
    ensures queue.deleted == old(queue.deleted)
  {
    queue.SendMessage(QueueGroup, message);
  }

  /** processBucketImages. The bucket is given by its keys in listing order;
      `isSupported` is the image-type test, `client` the label-detection client. */
  method ProcessBucketImages(sqs: QueueRegistry, lookupFails: bool, queue: FifoQueue, bucket: seq<string>,
                             isSupported: string -> bool, client: LabelClient)
    returns (queueUrl: string, outcome: RunOutcome, classified: seq<string>)
    requires sqs.Valid() && queue.Valid()
    modifies sqs, queue, client
    ensures sqs.Valid() && queue.Valid()
    ensures QueueName in sqs.urls && sqs.urls[QueueName] == queueUrl
    ensures QueueName in old(sqs.urls) ==>
              && queueUrl == old(sqs.urls[QueueName])
              && sqs.urls == old(sqs.urls) && sqs.attributes == old(sqs.attributes)
              && sqs.created == old(sqs.created)
    ensures QueueName !in old(sqs.urls) ==>
              && queueUrl == sqs.endpoint + "/" + QueueName
              && sqs.urls == old(sqs.urls)[QueueName := queueUrl]
              && sqs.attributes == old(sqs.attributes)[queueUrl := FifoAttributes]
              && sqs.created == old(sqs.created) + [QueueName]
    ensures var cands := Filter(ListPage(bucket), isSupported);
            var a := FirstExhausted(cands, VerdictOf(client.service));
            && |old(queue.messages)| <= |queue.messages|
            && queue.messages[..|old(queue.messages)|] == old(queue.messages)
            && Bodies(queue.messages[|old(queue.messages)|..]) == Publications(cands, VerdictOf(client.service))
            && (forall j :: |old(queue.messages)| <= j < |queue.messages| ==> queue.messages[j].groupId == QueueGroup)
            && classified == cands[..if a < |cands| then a + 1 else a]
            && outcome == (if a < |cands| then Aborted(cands[a]) else Completed)
    ensures queue.nextSequenceNumber == old(queue.nextSequenceNumber) + (|queue.messages| - |old(queue.messages)|)
    ensures queue.deleted == old(queue.deleted)
    ensures client.requested == old(client.requested) + Requests(classified, client.service)
  {
    queueUrl := GetQueueUrl(sqs, lookupFails);
    var page := ListPage(bucket);
    outcome, classified := PublishCarImages(queue, page, isSupported, client);
  }

  /** `messages` is `before` followed by new messages, all in group QueueGroup,
      whose bodies are `bodies`. */
  ghost predicate Extends(before: seq<Message>, messages: seq<Message>, bodies: seq<string>)
  {
    && |before| <= |messages|
    && messages[..|before|] == before
    && Bodies(messages[|before|..]) == bodies
    && forall j :: |before| <= j < |messages| ==> messages[j].groupId == QueueGroup
  }

  /** How a run over the supported keys `cands` ends: the keys it checked, in
      order, up to and including the first whose check gave up. */
  ghost predicate RunResult(cands: seq<string>, verdict: string -> Verdict, classified: seq<string>, outcome: RunOutcome)
  {
    var a := FirstExhausted(cands, verdict);
    && classified == cands[..if a < |cands| then a + 1 else a]
    && outcome == (if a < |cands| then Aborted(cands[a]) else Completed)
  }

  /** The label calls made when the keys `keys` are checked in order: each key
      once per attempt its check makes. */
  function Requests(keys: seq<string>, service: LabelService): seq<string>
  {
    if keys == [] then []
    else
      var last := keys[|keys| - 1];
      Requests(keys[..|keys| - 1], service) + Repeat(last, Classify(service, last).calls)
  }

  /** The label service is asked about exactly the keys checked, and about each
      at least once. */
  lemma {:induction false} RequestedKeys(keys: seq<string>, service: LabelService)
    ensures forall k :: k in Requests(keys, service) <==> k in keys
  {
    if keys != [] {
      var init, last := keys[..|keys| - 1], keys[|keys| - 1];
      RequestedKeys(init, service);
      var r := Repeat(last, Classify(service, last).calls);
      assert r[0] == last;
      assert keys == init + [last];
    }
  }

  lemma RequestsStep(keys: seq<string>, key: string, service: LabelService,
                     log: seq<string>, asked: seq<string>, now: seq<string>)
    requires asked == log + Requests(keys, service)
    requires now == asked + Repeat(key, Classify(service, key).calls)
    ensures now == log + Requests(keys + [key], service)
  {
    var ks := keys + [key];
    assert ks[..|ks| - 1] == keys;
  }

  /** The loop of processBucketImages over one listing page: skip the unsupported
      keys, send each car key, stop when a label check gives up, and send the
      sentinel after the last key. */
  method PublishCarImages(queue: FifoQueue, page: seq<string>, isSupported: string -> bool, client: LabelClient)
    returns (outcome: RunOutcome, classified: seq<string>)
    requires queue.Valid()
    modifies queue, client
    ensures queue.Valid()
    ensures Extends(old(queue.messages), queue.messages, Publications(Filter(page, isSupported), VerdictOf(client.service)))
    ensures RunResult(Filter(page, isSupported), VerdictOf(client.service), classified, outcome)
    ensures queue.nextSequenceNumber == old(queue.nextSequenceNumber) + (|queue.messages| - |old(queue.messages)|)
    ensures queue.deleted == old(queue.deleted)
    ensures client.requested == old(client.requested) + Requests(classified, client.service)
  {
    ghost var start := Snapshot(queue.messages, queue.nextSequenceNumber, queue.deleted, client.requested);
    ghost var verdicts := VerdictOf(client.service);
    classified := [];
    ExtendsNothing(start.messages);
    assert start.requested + [] == start.requested;
    for i := 0 to |page|
      invariant queue.Valid()
      invariant classified == Filter(page[..i], isSupported)
      invariant forall j :: 0 <= j < |classified| ==> verdicts(classified[j]) != GaveUp
      invariant Published(start, queue, client, Matching(classified, verdicts), classified)
    {
      var stop;
      classified, stop := VisitKey(queue, client, page, isSupported, i, start, classified);
      if stop {
        outcome := Aborted(page[i]);
        return;
      }
    }
    assert page[..|page|] == page;
    FinishRun(queue, client, page, isSupported, start, classified);
    outcome := Completed;
  }

  /** One turn of the loop, on the key at position `i` of the page: skip it when
      unsupported, otherwise check it and send it when it is a car; `stop` when
      its check gives up, which ends the run. */
  method VisitKey(queue: FifoQueue, client: LabelClient, page: seq<string>, isSupported: string -> bool, i: nat,
                  ghost start: Snapshot, classified: seq<string>)
    returns (next: seq<string>, stop: bool)
    requires i < |page| && queue.Valid()
    requires classified == Filter(page[..i], isSupported)
    requires forall j :: 0 <= j < |classified| ==> VerdictOf(client.service)(classified[j]) != GaveUp
    requires Published(start, queue, client, Matching(classified, VerdictOf(client.service)), classified)
    modifies queue, client
    ensures queue.Valid()
    ensures !stop ==>
              && next == Filter(page[..i + 1], isSupported)
              && (forall j :: 0 <= j < |next| ==> VerdictOf(client.service)(next[j]) != GaveUp)
              && Published(start, queue, client, Matching(next, VerdictOf(client.service)), next)
    ensures stop ==>
              && Published(start, queue, client, Publications(Filter(page, isSupported), VerdictOf(client.service)), next)
              && RunResult(Filter(page, isSupported), VerdictOf(client.service), next, Aborted(page[i]))
  {
    var key := page[i];
    SupportedStep(page, i, isSupported);
    if !isSupported(key) {
      return classified, false;
    }
    var verdict := PublishStep(queue, client, key, start, classified);
    next, stop := classified + [key], verdict == GaveUp;
    if stop {
      AbortedAt(page, i, isSupported, VerdictOf(client.service));
    }
  }

  /** After the last key, when no check gave up: send the sentinel. */
  method FinishRun(queue: FifoQueue, client: LabelClient, page: seq<string>, isSupported: string -> bool,
                   ghost start: Snapshot, ghost classified: seq<string>)
    requires queue.Valid()
    requires classified == Filter(page, isSupported)
    requires forall j :: 0 <= j < |classified| ==> VerdictOf(client.service)(classified[j]) != GaveUp
    requires Published(start, queue, client, Matching(classified, VerdictOf(client.service)), classified)
    modifies queue
    ensures queue.Valid()
    ensures Published(start, queue, client, Publications(classified, VerdictOf(client.service)), classified)
    ensures RunResult(classified, VerdictOf(client.service), classified, Completed)
  {
    ghost var verdicts := VerdictOf(client.service);
    CompletedAll(page, isSupported, verdicts);
    ghost var mid := queue.messages;
    SendMessageToQueue(queue, Sentinel);
    ExtendsSend(start.messages, mid, Matching(classified, verdicts), queue.messages[|mid|]);
  }

  /** The state of the queue and of the label client when the loop starts. */
  datatype Snapshot = Snapshot(messages: seq<Message>, sent: nat, deleted: seq<Message>, requested: seq<string>)

  /** Since `start`, the queue gained messages in group QueueGroup with bodies
      `bodies`, one sequence number each, nothing was deleted, and the label
      client was asked about the keys `checked`, in order. */
  ghost predicate Published(start: Snapshot, queue: FifoQueue, client: LabelClient, bodies: seq<string>, checked: seq<string>)
    reads queue, client
  {
    && Extends(start.messages, queue.messages, bodies)
    && queue.nextSequenceNumber == start.sent + (|queue.messages| - |start.messages|)
    && queue.deleted == start.deleted
    && client.requested == start.requested + Requests(checked, client.service)
  }

  /** One supported key of the loop, after the keys `checked` that did not give
      up: run the label check, send the key when it answers "car". */
  method PublishStep(queue: FifoQueue, client: LabelClient, key: string, ghost start: Snapshot, ghost checked: seq<string>)
    returns (verdict: Verdict)
    requires queue.Valid()
    requires Published(start, queue, client, Matching(checked, VerdictOf(client.service)), checked)
    modifies queue, client
    ensures queue.Valid()
    ensures verdict == VerdictOf(client.service)(key)
    ensures verdict != GaveUp ==>
              Published(start, queue, client, Matching(checked + [key], VerdictOf(client.service)), checked + [key])
    ensures verdict == GaveUp ==>
              Published(start, queue, client, Matching(checked, VerdictOf(client.service)), checked + [key])
  {
    ghost var verdicts := VerdictOf(client.service);
    ghost var mid, n, asked := queue.messages, queue.nextSequenceNumber, client.requested;
    verdict := PublishIfCar(queue, key, client);
    RequestsStep(checked, key, client.service, start.requested, asked, client.requested);
    if verdict != GaveUp {
      ExtendsStep(start.messages, mid, queue.messages, checked, key, n, verdicts);
    }
  }

  /** One supported key of the loop: run the label check and send the key when
      it answers "car". Nothing is sent otherwise, in particular when the check gives up. */
  method PublishIfCar(queue: FifoQueue, key: string, client: LabelClient) returns (verdict: Verdict)
    requires queue.Valid()
    modifies queue, client
    ensures queue.Valid()
    ensures verdict == VerdictOf(client.service)(key)
    ensures queue.messages == old(queue.messages) +
              if verdict == IsCar(true) then [Message(old(queue.nextSequenceNumber), QueueGroup, key)] else []
    ensures queue.nextSequenceNumber == old(queue.nextSequenceNumber) + (if verdict == IsCar(true) then 1 else 0)
    ensures queue.deleted == old(queue.deleted)
    ensures client.requested == old(client.requested) + Repeat(key, Classify(client.service, key).calls)
  {
    var calls, delays;
    verdict, calls, delays := IsImageOfCar(client, key);
    if verdict == IsCar(true) {
      SendMessageToQueue(queue, key);
    }
  }

  lemma ExtendsNothing(before: seq<Message>)
    ensures Extends(before, before, [])
  {
    assert before[|before|..] == [];
  }

  /** Sending one more message in group QueueGroup extends the bodies by its body. */
  lemma ExtendsSend(before: seq<Message>, mid: seq<Message>, bodies: seq<string>, m: Message)
    requires Extends(before, mid, bodies) && m.groupId == QueueGroup
    ensures Extends(before, mid + [m], bodies + [m.body])
  {
    var messages := mid + [m];
    assert messages[..|before|] == mid[..|before|];
    assert messages[|before|..] == mid[|before|..] + [m];
    BodiesConcat(mid[|before|..], [m]);
  }

  /** One checked key that did not give up: the queue grows by the key exactly when
      the check said "car", as the matching keys do. */
  lemma ExtendsStep(before: seq<Message>, mid: seq<Message>, messages: seq<Message>,
                    classified: seq<string>, key: string, n: nat, verdict: string -> Verdict)
    requires Extends(before, mid, Matching(classified, verdict))
    requires verdict(key).IsCar?
    requires messages == mid + if verdict(key) == IsCar(true) then [Message(n, QueueGroup, key)] else []
    ensures Extends(before, messages, Matching(classified + [key], verdict))
  {
    MatchingStep(classified, key, verdict);
    if verdict(key) == IsCar(true) {
      ExtendsSend(before, mid, Matching(classified, verdict), Message(n, QueueGroup, key));
    } else {
      assert Matching(classified, verdict) + [] == Matching(classified, verdict);
    }
  }

  lemma SupportedStep(page: seq<string>, i: nat, isSupported: string -> bool)
    requires i < |page|
    ensures Filter(page[..i + 1], isSupported) ==
            Filter(page[..i], isSupported) + (if isSupported(page[i]) then [page[i]] else [])
  {
    assert page[..i + 1] == page[..i] + [page[i]];
    FilterAppend(page[..i], [page[i]], isSupported);
  }

  lemma MatchingStep(keys: seq<string>, key: string, verdict: string -> Verdict)
    ensures Matching(keys + [key], verdict) ==
            Matching(keys, verdict) + (if verdict(key) == IsCar(true) then [key] else [])
  {
    FilterAppend(keys, [key], IsCarKey(verdict));
  }

  /** The run stops at the i-th listed key: it is the first supported key whose
      check gave up, so the run ends there and has sent the car keys before it. */
  lemma AbortedAt(page: seq<string>, i: nat, isSupported: string -> bool, verdict: string -> Verdict)
    requires i < |page| && isSupported(page[i]) && verdict(page[i]) == GaveUp
    requires var done := Filter(page[..i], isSupported);
             forall j :: 0 <= j < |done| ==> verdict(done[j]) != GaveUp
    ensures var done := Filter(page[..i], isSupported);
            var cands := Filter(page, isSupported);
            && RunResult(cands, verdict, done + [page[i]], Aborted(page[i]))
            && Publications(cands, verdict) == Matching(done, verdict)
  {
    var done := Filter(page[..i], isSupported);
    var cands := Filter(page, isSupported);
    assert page == page[..i] + ([page[i]] + page[i + 1..]);
    FilterAppend(page[..i], [page[i]] + page[i + 1..], isSupported);
    assert cands == done + ([page[i]] + Filter(page[i + 1..], isSupported));
    assert cands[..|done|] == done;
    assert cands[..|done| + 1] == done + [page[i]];
    FirstExhaustedAt(cands, verdict, |done|);
    PublicationsClosedForm(cands, verdict);
  }

  /** A key whose check gives up, preceded only by keys whose checks do not, is the first. */
  lemma FirstExhaustedAt(keys: seq<string>, verdict: string -> Verdict, k: nat)
    requires k < |keys| && verdict(keys[k]) == GaveUp
    requires forall j :: 0 <= j < k ==> verdict(keys[j]) != GaveUp
    ensures FirstExhausted(keys, verdict) == k
  {
  }

  /** Every supported key was checked without giving up: the run completes and
      sends the sentinel after the car keys. */
  lemma CompletedAll(page: seq<string>, isSupported: string -> bool, verdict: string -> Verdict)
    requires var cands := Filter(page, isSupported);
             forall j :: 0 <= j < |cands| ==> verdict(cands[j]) != GaveUp
    ensures var cands := Filter(page, isSupported);
            && RunResult(cands, verdict, cands, Completed)
            && Publications(cands, verdict) == Matching(cands, verdict) + [Sentinel]
  {
    var cands := Filter(page, isSupported);
    PublicationsClosedForm(cands, verdict);
    assert cands[..|cands|] == cands;
  }

}
