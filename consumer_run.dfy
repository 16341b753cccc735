/** TextRecognize as a whole: the receive loop of `Consumer`, then the results
    file of `ReportFile`. */
module ConsumerRun {
  import opened Sqs
  import opened Consumer
  import opened ReportFile

  /** The whole consumer: the receive loop, then, once the sentinel has ended it,
      the results file with one line per entry of `outputs`, in the order the map
      iterates. A run that never reaches the sentinel writes no file. */
  method Consume(queue: FifoQueue, detect: TextService, polls: seq<bool>)
    returns (outputs: map<string, string>, finished: bool, file: Option<string>)
    requires queue.Valid()
    modifies queue
    ensures queue.Valid()
    ensures var bs := Bodies(old(queue.messages));
            var s := FirstSentinel(bs);
            var n := Min(CountTrue(polls), s);
            && (finished <==> s < |bs| && CountTrue(polls) > s)
            && queue.messages == old(queue.messages)[n..]
            && queue.deleted == old(queue.deleted) + old(queue.messages)[..n]
            && outputs == Report(bs[..n], detect)
    ensures queue.nextSequenceNumber == old(queue.nextSequenceNumber)
    ensures file.Some? <==> finished
    ensures file.Some? ==> exists order :: IsIterationOrder(order, outputs) && file.value == Render(order, outputs)
    ensures file.Some? && (forall k :: k in outputs ==> ':' !in k && '\n' !in k && '\n' !in outputs[k]) ==>
              ParseReport(file.value) == Some(outputs)
  {
    var results;
    results, finished := Drain(queue, detect, polls);
    outputs := results.entries;
    if !finished {
      return outputs, finished, None;
    }
    var order := EntryOrder(outputs);
    var contents := WriteResults(outputs, order);
    file := Some(contents);
    if forall k :: k in outputs ==> ':' !in k && '\n' !in k && '\n' !in outputs[k] {
      FileRecoversOutputs(order, outputs);
    }
  }
}
