/** The label check of the producer: ask the label-detection service whether an
    image shows a car, retrying with exponential backoff on failure. */
module Classifier {
  import opened Backoff

  /** The label looked for, compared case-sensitively. */
  const CarLabel := "Car"

  /** The answer of one DetectLabels call: the call threw, or it returned the names
      of the labels the service found (at confidence 90 or more). */
  datatype DetectOutcome = Failed | Labels(names: seq<string>)

  /** The label-detection service: the answer for image `key` on its attempt
      number `n` (counted from 0 for each image). */
  type LabelService = (string, nat) -> DetectOutcome

  /** What the check ends with: a yes/no answer, or the rethrown failure after
      MaxRetries failed attempts. */
  datatype Verdict = IsCar(car: bool) | GaveUp

  /** The verdict, the number of service calls made and the delays slept, in order. */
  datatype Classification = Classification(verdict: Verdict, calls: nat, delays: seq<nat>)

  /** The test of CarRecognize.java:74 applied to every returned label: the
      specification that the loop `FindCarLabel` implements. */
  predicate HasCarLabel(names: seq<string>): (b: bool)
    ensures b <==> exists i :: 0 <= i < |names| && names[i] == CarLabel
  {
    CarLabel in names
  }

  /** The first attempt below `limit` that succeeded, or `limit` if all failed. */
  function FirstSuccess(service: LabelService, key: string, limit: nat): (k: nat)
    ensures k <= limit
    ensures forall i :: 0 <= i < k ==> service(key, i).Failed?
    ensures k < limit ==> service(key, k).Labels?
  {
    if limit == 0 then 0
    else
      var k := FirstSuccess(service, key, limit - 1);
      if k < limit - 1 || service(key, limit - 1).Labels? then k else limit
  }

  /** The delays slept after the first `n` failures. */
  function Delays(n: nat): (ds: seq<nat>)
    ensures |ds| == n
    ensures forall i :: 0 <= i < n ==> ds[i] == BackoffDelay(i + 1)
  {
    if n == 0 then [] else Delays(n - 1) + [BackoffDelay(n)]
  }

  /** The answer the label check reaches from attempt number `attempt` on: the
      first successful attempt decides, and running out of attempts gives up. */
  function VerdictFrom(service: LabelService, key: string, attempt: nat): (v: Verdict)
    ensures v == GaveUp <==> forall i :: attempt <= i < MaxRetries ==> service(key, i).Failed?
    decreases MaxRetries - attempt
  {
    if attempt >= MaxRetries then GaveUp
    else
      match service(key, attempt)
      case Labels(names) => IsCar(HasCarLabel(names))
      case Failed => VerdictFrom(service, key, attempt + 1)
  }

  /** The answer the label check gives for `key`. */
  function ClassifyVerdict(service: LabelService, key: string): (v: Verdict)
    ensures v.IsCar? ==>
              var k := FirstSuccess(service, key, MaxRetries);
              k < MaxRetries && v.car == HasCarLabel(service(key, k).names)
  {
    VerdictFromFirstSuccess(service, key, 0);
    VerdictFrom(service, key, 0)
  }

  /** The verdict is decided by the first successful attempt, whatever attempt the
      search starts from as long as the earlier ones failed. */
  lemma {:induction false} VerdictFromFirstSuccess(service: LabelService, key: string, attempt: nat)
    requires attempt <= MaxRetries
    requires forall i :: 0 <= i < attempt ==> service(key, i).Failed?
    ensures var k := FirstSuccess(service, key, MaxRetries);
            VerdictFrom(service, key, attempt) ==
              if k < MaxRetries then IsCar(HasCarLabel(service(key, k).names)) else GaveUp
    decreases MaxRetries - attempt
  {
    if attempt < MaxRetries && service(key, attempt).Failed? {
      VerdictFromFirstSuccess(service, key, attempt + 1);
    }
  }

  /** What the label check does for `key`, stated through the first successful
      attempt rather than through the loop: the verdict, the calls made and the
      delays slept. */
  function Classify(service: LabelService, key: string): (c: Classification)
    ensures c.verdict == ClassifyVerdict(service, key)
    ensures c.verdict == GaveUp <==> forall i :: 0 <= i < MaxRetries ==> service(key, i).Failed?
    ensures 1 <= c.calls <= MaxRetries
    ensures c.verdict == GaveUp ==> c.calls == MaxRetries && c.delays == Delays(MaxRetries - 1)
    ensures c.verdict.IsCar? ==>
              && (forall i :: 0 <= i < c.calls - 1 ==> service(key, i).Failed?)
              && service(key, c.calls - 1).Labels?
              && c.verdict.car == HasCarLabel(service(key, c.calls - 1).names)
              && c.delays == Delays(c.calls - 1)
  {
    VerdictFromFirstSuccess(service, key, 0);
    var k := FirstSuccess(service, key, MaxRetries);
    if k < MaxRetries then
      Classification(IsCar(HasCarLabel(service(key, k).names)), k + 1, Delays(k))
    else
      Classification(GaveUp, k, Delays(k - 1))
  }

  /** `n` copies of `key`: the log entries of `n` calls about one image. */
  function Repeat(key: string, n: nat): (r: seq<string>)
    ensures |r| == n
    ensures forall i :: 0 <= i < n ==> r[i] == key
  {
    if n == 0 then [] else Repeat(key, n - 1) + [key]
  }

  /** The label-detection client the producer holds. Each DetectLabels call is
      answered by `service`, and the image it asks about joins the ghost log
      `requested`. */
  class LabelClient {
    const service: LabelService
    /** The images asked about, one entry per call, in order. */
    ghost var requested: seq<string>

    constructor (service: LabelService)
      ensures this.service == service && requested == []
    {
      this.service := service;
      requested := [];
    }

    /** DetectLabels for image `key`, on its attempt number `attempt`. */
    method DetectLabels(key: string, attempt: nat) returns (outcome: DetectOutcome)
      modifies this
      ensures outcome == service(key, attempt)
      ensures requested == old(requested) + [key]
    {
      outcome := service(key, attempt);
      requested := requested + [key];
    }
  }

  /** isImageOfCar: call the service until it answers, at most MaxRetries times,
      sleeping BackoffDelay(retries) after each failure but the last. Every call
      is about `key`, and there are `calls` of them. */
  method IsImageOfCar(client: LabelClient, key: string) returns (verdict: Verdict, calls: nat, delays: seq<nat>)
    modifies client
    ensures Classification(verdict, calls, delays) == Classify(client.service, key)
    ensures client.requested == old(client.requested) + Repeat(key, calls)
  {
    ghost var service, log := client.service, client.requested;
    var retries := 0;
    calls, delays := 0, [];
    while retries < MaxRetries
      invariant retries < MaxRetries
      invariant calls == retries
      invariant forall i :: 0 <= i < retries ==> service(key, i).Failed?
      invariant delays == Delays(retries)
      invariant client.requested == log + Repeat(key, calls)
    {
      var outcome := client.DetectLabels(key, calls);
      calls := calls + 1;
      match outcome {
        case Labels(names) =>
          var found := FindCarLabel(names);
          if found {
            verdict := IsCar(true);
            return;
          }
          break;
        case Failed =>
          retries := retries + 1;
          if ShouldGiveUp(retries) {
            verdict := GaveUp;
            return;
          }
          delays := delays + [BackoffDelay(retries)];
      }
    }
    verdict := IsCar(false);
  }

  /** The scan over the labels of one answer: true as soon as one is named "Car". */
  method FindCarLabel(names: seq<string>) returns (found: bool)
    ensures found == HasCarLabel(names)
  {
    for j := 0 to |names|
      invariant forall i :: 0 <= i < j ==> names[i] != CarLabel
    {
      if names[j] == CarLabel {
        return true;
      }
    }
    return false;
  }

  /** When every attempt fails the delays are exactly 2 s, 4 s, 8 s and 16 s: none
      follows the fifth failure. */
  lemma GaveUpSchedule(service: LabelService, key: string)
    requires Classify(service, key).verdict == GaveUp
    ensures Classify(service, key).delays == [2000, 4000, 8000, 16000]
  {
    BackoffSchedule();
  }

  /** A first answer without a "Car" label ends the check at once with false. */
  lemma NoRetryAfterSuccess(service: LabelService, key: string)
    requires service(key, 0).Labels? && !HasCarLabel(service(key, 0).names)
    ensures Classify(service, key) == Classification(IsCar(false), 1, [])
  {
  }

  /** Only the attempts actually made matter: two services that agree on them
      give the same classification. */
  lemma OnlyCallsMadeMatter(s1: LabelService, s2: LabelService, key: string)
    requires forall i :: 0 <= i < Classify(s1, key).calls ==> s1(key, i) == s2(key, i)
    ensures Classify(s1, key) == Classify(s2, key)
  {
  }
}
