/** The two programs run one after the other on a fresh queue service: the
    producer publishes its car keys, then the consumer drains the queue. */
module Pipeline {
  import opened Sqs
  import opened Classifier
  import opened Producer
  import opened Consumer
  import opened ReportFile
  import opened ConsumerRun

  /** The car keys the producer publishes for `bucket`, in listing order: those
      checked before the first label check that gave up. */
  function CarKeys(bucket: seq<string>, isSupported: string -> bool, rekognition: LabelService): seq<string>
  {
    var cands := Filter(ListPage(bucket), isSupported);
    Matching(cands[..FirstExhausted(cands, VerdictOf(rekognition))], VerdictOf(rekognition))
  }

  /** What reaches the queue: the car keys, and then the sentinel exactly when the
      producer completed. */
  lemma PublishedQueue(bucket: seq<string>, isSupported: string -> bool, rekognition: LabelService)
    requires Sentinel !in bucket
    ensures var cands := Filter(ListPage(bucket), isSupported);
            var cars := CarKeys(bucket, isSupported, rekognition);
            var complete := FirstExhausted(cands, VerdictOf(rekognition)) == |cands|;
            var ps := Publications(cands, VerdictOf(rekognition));
            && ps == cars + (if complete then [Sentinel] else [])
            && FirstSentinel(ps) == |cars|
            && ps[..|cars|] == cars
  {
    var page := ListPage(bucket);
    var cands := Filter(page, isSupported);
    var verdict := VerdictOf(rekognition);
    var a := FirstExhausted(cands, verdict);
    var cars := Matching(cands[..a], verdict);
    PublicationsClosedForm(cands, verdict);
    FilterMembers(page, isSupported);
    FilterMembers(cands[..a], IsCarKey(verdict));
    assert forall k :: k in cands[..a] ==> k in cands;
    assert Sentinel !in cars;
    var ps := Publications(cands, verdict);
    SentinelAfter(cars, ps[|cars|..]);
    assert ps == cars + ps[|cars|..];
    assert ps[..|cars|] == cars;
  }

  /** The first sentinel of `cars + tail`, when `cars` holds none and `tail` is
      empty or starts with one, is at |cars|. */
  lemma {:induction false} SentinelAfter(cars: seq<string>, tail: seq<string>)
    requires Sentinel !in cars
    requires tail == [] || tail[0] == Sentinel
    ensures FirstSentinel(cars + tail) == |cars|
  {
    if cars != [] {
      assert (cars + tail)[0] == cars[0];
      assert (cars + tail)[1..] == cars[1..] + tail;
      SentinelAfter(cars[1..], tail);
    } else {
      assert cars + tail == tail;
    }
  }

  /** The producer runs over `bucket` (whose keys are listed in order and none of
      which is the sentinel) on a fresh queue service, then the consumer drains the
      queue under the receive schedule `polls`. The consumer finishes exactly when
      the producer completed and enough receives were answered; it records the
      car keys it got to, each with the words of its detectText call. */
  method RunPipeline(endpoint: string, lookupFails: bool, bucket: seq<string>, isSupported: string -> bool,
                     rekognition: LabelService, detect: TextService, polls: seq<bool>)
    returns (outcome: RunOutcome, outputs: map<string, string>, finished: bool, file: Option<string>)
    requires Sentinel !in bucket
    ensures var cars := CarKeys(bucket, isSupported, rekognition);
            var n := Min(CountTrue(polls), |cars|);
            && (finished <==> outcome == Completed && CountTrue(polls) > |cars|)
            && outputs == Report(cars[..n], detect)
    ensures file.Some? <==> finished
    ensures file.Some? ==> exists order :: IsIterationOrder(order, outputs) && file.value == Render(order, outputs)
  {
    var sqs := new QueueRegistry(endpoint);
    var queue := new FifoQueue();
    var client := new LabelClient(rekognition);
    var queueUrl, classified;
    queueUrl, outcome, classified := ProcessBucketImages(sqs, lookupFails, queue, bucket, isSupported, client);
    assert queue.messages[0..] == queue.messages;
    PublishedQueue(bucket, isSupported, rekognition);
    ghost var cands := Filter(ListPage(bucket), isSupported);
    ghost var complete := FirstExhausted(cands, VerdictOf(rekognition)) == |cands|;
    assert outcome == Completed <==> complete;
    ghost var ps := Bodies(queue.messages);
    outputs, finished, file := Consume(queue, detect, polls);
    DrainOfPublished(ps, CarKeys(bucket, isSupported, rekognition), complete, polls);
  }

  /** The consumer's view of what the producer published: it reaches the sentinel
      exactly when the producer completed and more receives were answered than
      there are car keys, and the bodies it processes are car keys. */
  lemma DrainOfPublished(ps: seq<string>, cars: seq<string>, complete: bool, polls: seq<bool>)
    requires ps == cars + (if complete then [Sentinel] else [])
    requires FirstSentinel(ps) == |cars|
    ensures var s := FirstSentinel(ps);
            && (s < |ps| && CountTrue(polls) > s <==> complete && CountTrue(polls) > |cars|)
            && ps[..Min(CountTrue(polls), s)] == cars[..Min(CountTrue(polls), |cars|)]
  {
    var n := Min(CountTrue(polls), |cars|);
    assert ps[..n] == cars[..n];
  }

  /** Once the consumer finished, every car key is recorded, and nothing else,
      each with the words of the last detectText call made for it. */
  lemma FinishedRecordsAllCars(cars: seq<string>, detect: TextService, polls: seq<bool>)
    requires CountTrue(polls) > |cars|
    ensures var outputs := Report(cars[..Min(CountTrue(polls), |cars|)], detect);
            && (forall k :: k in outputs <==> k in cars)
            && (forall k :: k in cars ==> outputs[k] == WordText(detect(k, LastIndex(cars, k))))
  {
    assert cars[..|cars|] == cars;
    ReportEntries(cars, detect);
  }
}
