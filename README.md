# Car-image text pipeline, modelled in Dafny

The system is two programs that talk only through a FIFO message queue.

- **CarRecognize** is the producer. It asks the queue service for the queue
  `car.fifo`, creating it as a FIFO queue with content-based deduplication when
  the look-up fails. It lists at most 10 keys of the image bucket and skips the
  keys whose image type is not supported. For each other key it asks the
  label-detection service whether the image shows a `"Car"`. A failed call is
  retried up to 5 attempts in all, sleeping 2^r seconds after the r-th failure;
  the fifth failure is rethrown and ends the run. Each car key is sent under
  message group `group1`, and after the last key the sentinel `"-1"` is sent.
- **TextRecognize** is the consumer. It receives one message at a time. An empty
  receive is simply retried. On the sentinel it stops. On any other body it asks
  the text-detection service for the fragments in that image and keeps the WORD
  fragments, each followed by a space. It stores that text under the key, deletes
  the message, and at the end writes one `key: text` line per entry.

The project models both programs and proves how they behave together.

| file | module | what it holds |
|---|---|---|
| `backoff.dfy` | `Backoff` | the retry budget and the delay after each failure |
| `classifier.dfy` | `Classifier` | the label check with its retry loop (`IsImageOfCar`) and its specification `Classify` |
| `sqs.dfy` | `Sqs` | in-memory stand-ins for the queue service: the registry of named queues and one FIFO queue (classes with `modifies` frames) |
| `producer.dfy` | `Producer` | `getQueueUrl`, `sendMessageToQueue`, `processBucketImages` and the specification of what gets published |
| `consumer.dfy` | `Consumer` | the StringBuilder loop, the `outputs` map object, the receive loop with its store-then-delete step, and the specification of `outputs` |
| `consumer_run.dfy` | `ConsumerRun` | the whole consumer: the receive loop, then the results file once the sentinel is reached |
| `report_file.dfy` | `ReportFile` | the output lines, the writing loop and a reader that recovers the map from the file (`ParseLine` and `ParseReport` model no code of the source: the reader exists only to state the round trip) |
| `pipeline.dfy` | `Pipeline` | the producer then the consumer on a fresh queue service |

The external services are given as parameters.

- The label service is a function from (image key, attempt number) to
  `Failed` or the list of label names.
- The text service is a function from (image key, number of the detectText call)
  to the fragments found.
- The label service is reached through a `LabelClient` object that logs the key
  of every call, so the model can state which keys were sent to the service.
- A failure of the queue look-up itself (throttling, a network error) is the
  parameter `lookupFails`.
- The image-type test `isSupportedImageFile` has no body in the source, so it is
  a parameter as well.
- The consumer's endless receive loop runs over a finite schedule `polls`. Entry
  i says whether the i-th receive returns the oldest waiting message. The result
  `finished` tells whether the sentinel was reached within the schedule.

## Model

| member | source | states |
|---|---|---|
| `Backoff.BackoffDelay` | CarRecognize.java:86 | the sleep after the r-th failure, 2^r * 1000 ms, is at least one second (its values are fixed by `BackoffSchedule`) |
| `Backoff.ShouldGiveUp` | CarRecognize.java:81 | the loop rethrows once the failure counter reaches 5 (its use is stated by `BackoffSchedule`) |
| `Backoff.BackoffSchedule` | CarRecognize.java:80-89 | the delays after failures 1 to 5 are 2000, 4000, 8000, 16000 and 32000 ms; the loop goes on after failures 1 to 4 and gives up at the fifth |
| `Classifier.HasCarLabel` | CarRecognize.java:73-77 | the labels contain "Car" iff some label at some position is named exactly "Car" |
| `Classifier.LabelClient.DetectLabels` | CarRecognize.java:73 | one detectLabels call returns the service's outcome for that key and attempt, and the key joins the client's log of requests |
| `Classifier.FindCarLabel` | CarRecognize.java:73-77 | the loop over the labels returns true iff one is named "Car" |
| `Classifier.FirstSuccess` | CarRecognize.java:71-79 | the first attempt that did not throw: every earlier attempt failed, and it is within the limit only if it succeeded |
| `Classifier.Delays` | CarRecognize.java:85-89 | the sleeps after the first n failures, in order: the i-th is 2^(i+1) * 1000 ms |
| `Classifier.VerdictFrom` | CarRecognize.java:71-83 | the answer reached from attempt number `attempt` on is "gave up" iff every attempt from there to the fifth fails |
| `Classifier.ClassifyVerdict` | CarRecognize.java:71-83 | when the check answers, the answer is whether the labels of the first successful attempt, within the 5, contain "Car" |
| `Classifier.VerdictFromFirstSuccess` | CarRecognize.java:71-83 | the verdict is decided by the first successful attempt from any start whose earlier attempts failed, and is "gave up" when none of the 5 succeeds |
| `Classifier.Classify` | CarRecognize.java:65-97 | the verdict gives up iff all 5 attempts fail, and then 5 calls are made with 4 sleeps; otherwise the calls stop at the first success and the answer is whether its labels contain "Car" |
| `Classifier.IsImageOfCar` | CarRecognize.java:65-97 | the retry loop returns exactly the verdict, call count and sleeps of `Classify`, and the client is asked about this key exactly `calls` times and about nothing else |
| `Classifier.GaveUpSchedule` | CarRecognize.java:80-89 | when every attempt fails, the sleeps are exactly 2 s, 4 s, 8 s and 16 s; none follows the fifth failure |
| `Classifier.NoRetryAfterSuccess` | CarRecognize.java:73-78 | a first answer without "Car" ends the check at once with false, after one call and no sleep |
| `Classifier.OnlyCallsMadeMatter` | CarRecognize.java:71-83 | two services that agree on the attempts actually made give the same result |
| `Sqs.QueueRegistry.GetQueueUrl` | CarRecognize.java:115 | the url is returned iff the name is registered and the call does not fail; otherwise the look-up throws |
| `Sqs.QueueRegistry.CreateQueue` | CarRecognize.java:117-118 | a new name is registered under endpoint/name with the given attributes; an existing name gets its registered url back and nothing changes |
| `Sqs.FifoQueue.SendMessage` | CarRecognize.java:104 | the message joins the end of the queue with the next sequence number; order stays increasing |
| `Sqs.FifoQueue.ReceiveMessage` | TextRecognize.java:48-54 | a delivering receive on a non-empty queue returns the oldest message; otherwise nothing; the queue is unchanged |
| `Sqs.FifoQueue.DeleteMessage` | TextRecognize.java:76 | exactly the messages with that receipt handle leave the queue, and they join the log of deleted messages |
| `Sqs.Without` | TextRecognize.java:76 | the messages left after a delete are exactly those whose receipt handle differs |
| `Sqs.Removed` | TextRecognize.java:76 | the messages a delete takes out are exactly those with that receipt handle |
| `Sqs.WithoutHead` | TextRecognize.java:76 | deleting the head by its receipt handle removes the head and nothing else, and the head is the one message taken out |
| `Sqs.WithoutInOrder` | TextRecognize.java:76 | deleting keeps the queue in send order |
| `Producer.Filter` | CarRecognize.java:46-49 | the keys kept by the `continue` filter are no more than those listed (their membership is `FilterMembers`) |
| `Producer.ListPage` | CarRecognize.java:43-44 | the page is the first min(10, n) keys of the listing, in order |
| `Producer.FilterMembers` | CarRecognize.java:46-49 | the supported keys are exactly the listed keys that pass the image-type test |
| `Producer.FirstExhausted` | CarRecognize.java:52 | the position of the first key whose check gives up: all keys before it got an answer |
| `Producer.Publications` | CarRecognize.java:46-57 | key by key, the bodies sent: at most one per supported key, plus the sentinel |
| `Producer.PublicationsClosedForm` | CarRecognize.java:46-57 | the bodies sent are the car keys in listing order up to the first key whose check gives up, followed by the sentinel iff no check gave up |
| `Producer.PublicationsAreCarKeys` | CarRecognize.java:52-54 | every body sent other than the sentinel is a listed key whose check answered "car" |
| `Producer.UnsupportedNeverChecked` | CarRecognize.java:47-49 | every checked or sent key is a listed key that passed the image-type test |
| `Producer.SentinelLastExactlyOnce` | CarRecognize.java:57 | when no key is "-1", the sentinel is sent iff no check gave up, and then only once and last |
| `Producer.GetQueueUrl` | CarRecognize.java:107-121 | an existing queue's url is returned with nothing created, even when the look-up throws; otherwise "car.fifo" is created with FifoQueue and ContentBasedDeduplication set to "true"; either way the url has its attributes registered |
| `Producer.GetQueueUrlTwice` | CarRecognize.java:107-121 | two calls return the same url and create at most one queue, none if it existed, whichever look-ups throw |
| `Producer.SendMessageToQueue` | CarRecognize.java:99-105 | the body joins the queue under group "group1" with the next sequence number; the deletion log is unchanged |
| `Producer.PublishIfCar` | CarRecognize.java:52-54 | one key: the verdict is the label check's, the key is sent iff the check answered "car", and the label client is asked about this key only |
| `Producer.PublishStep` | CarRecognize.java:46-54 | one turn of the loop on a supported key: the messages, the sequence counter and the label client's log grow as the key's check and send dictate |
| `Producer.VisitKey` | CarRecognize.java:46-54 | one turn of the loop on any listed key: an unsupported key is skipped with nothing asked or sent; a supported key is checked and sent as `PublishStep` states, and a check that gives up ends the run with the car keys before it sent |
| `Producer.RequestedKeys` | CarRecognize.java:46-54 | the label service is asked about a key iff that key was checked; with `UnsupportedNeverChecked`, never about an unsupported key |
| `Producer.PublishCarImages` | CarRecognize.java:46-57 | the loop sends exactly the bodies of `PublicationsClosedForm`, all under "group1", after the old messages, and deletes nothing; it checks the supported keys up to the first that gives up, the label client is asked about exactly those keys in that order, and it reports how the run ended |
| `Producer.ProcessBucketImages` | CarRecognize.java:40-58 | the whole producer: it returns the url and leaves the registry exactly as `GetQueueUrl` does, in both the look-up and the create case; then it sends the publications of one listing page, asking the label service about the checked keys only |
| `Producer.AbortedAt` | CarRecognize.java:81-83 | a key whose check gives up after only answered keys ends the run there, after sending the car keys before it |
| `Producer.CompletedAll` | CarRecognize.java:55-57 | when no check gives up, every supported key is checked and the sentinel follows the car keys |
| `Producer.FinishRun` | CarRecognize.java:57 | after the last key, when no check gave up, the sentinel is sent and the run is complete |
| `Consumer.Piece` | TextRecognize.java:68-70 | a fragment adds something iff it is a WORD, and what it adds ends with a space |
| `Consumer.WordText` | TextRecognize.java:66-71 | the text kept for an image: the pieces of its fragments in service order (its properties are the three lemmas below) |
| `Consumer.WordTextAppend` | TextRecognize.java:66-71 | the text of two fragment lists back to back is the text of one then of the other |
| `Consumer.WordTextEmpty` | TextRecognize.java:66-71 | the text is empty iff no fragment is a WORD |
| `Consumer.WordTextTrailingSpace` | TextRecognize.java:68-70 | when some fragment is a WORD, the text ends with a space |
| `Consumer.BuildText` | TextRecognize.java:66-71 | the StringBuilder loop builds `WordText` of the fragments |
| `Consumer.FirstSentinel` | TextRecognize.java:55-59 | the position of the first "-1" body: none before it |
| `Consumer.CountTruePrefix` | TextRecognize.java:47-52 | a prefix of the receive schedule answers no more receives than the whole |
| `Consumer.Report` | TextRecognize.java:73 | `outputs` after the bodies `bs`: only bodies are keys, and the body processed last holds the text of its own call, whatever came before |
| `Consumer.ReportEntries` | TextRecognize.java:73 | `outputs` has one key per distinct body processed, holding the text of the last call made for it |
| `Consumer.StringMap.Put` | TextRecognize.java:73 | the key now maps to the value, replacing any earlier value, and the key joins the log of puts |
| `Consumer.PairedStep` | TextRecognize.java:73-76 | deleting the message whose text was put last pairs that put with its delete |
| `Consumer.DrainedFacts` | TextRecognize.java:73-76 | after the first n messages of a run, each put has been followed by the delete of its message, and every body deleted in the run is a key of `outputs` |
| `Consumer.ProcessMessage` | TextRecognize.java:63-76 | one message: its text, `WordText` of the detected fragments, is put in `outputs` under its body, and then the message leaves the queue and joins the deletion log; nothing is sent, and every put stays followed by its delete |
| `Consumer.StoreAndDelete` | TextRecognize.java:55-76 | one turn of the receive loop on a non-sentinel message keeps the loop state: one more message processed, stored and deleted |
| `Consumer.Poll` | TextRecognize.java:47-76 | one receive: an empty one changes nothing, the sentinel stops the loop with nothing stored or deleted, any other message is stored and deleted; the count of processed messages stays min(answered receives, s) |
| `Consumer.DeleteProcessed` | TextRecognize.java:73-76 | the delete can be called only when the map object holds the message's body and its latest put is of that body, not yet followed by a delete; it removes exactly the head and logs it, and sends nothing |
| `Consumer.Drain` | TextRecognize.java:45-77 | with s the position of the first sentinel and n = min(answered receives, s): the first n messages are processed in order, removed, and logged as deleted in that order; the new map object holds `outputs` of the first n bodies, those bodies were put in that order, every deleted body is a key, the sequence counter is unchanged (nothing is sent), and the loop finishes iff a sentinel exists and more than s receives were answered |
| `Consumer.SentinelNotRecorded` | TextRecognize.java:57-59 | the sentinel is never stored in `outputs`, and no deleted message, which `Drain` states are the first n, carries it |
| `Consumer.EmptyReceiveChangesNothing` | TextRecognize.java:48-52 | an empty receive inserted anywhere in the schedule leaves the count of answered receives, and so everything `Drain` computes, unchanged |
| `ConsumerRun.Consume` | TextRecognize.java:45-86 | the whole consumer: as in `Drain`, the first n messages are removed and logged as deleted, the sentinel and every message after it stay in the queue, and the sequence counter is unchanged; then a file only when the sentinel ended the loop; the file has one line per entry in some iteration order, and reads back as `outputs` when keys hold no colon or newline and texts no newline |
| `ReportFile.OutputLine` | TextRecognize.java:82 | the line for one entry: key, ": ", text and a closing newline, three characters longer than key and text |
| `ReportFile.Render` | TextRecognize.java:80-83 | the file for an iteration order: empty iff there are no entries, and at least three characters per entry |
| `ReportFile.EntryOrder` | TextRecognize.java:81 | the entry set is visited with every key exactly once |
| `ReportFile.WriteResults` | TextRecognize.java:80-83 | the file holds one `key: text` line per entry, in iteration order |
| `ReportFile.RenderAppend` | TextRecognize.java:81-83 | the lines of two runs of entries, concatenated |
| `ReportFile.ParseLineRoundTrip` | TextRecognize.java:82 | a line reads back as its key and text when the key holds no colon |
| `ReportFile.ReadBack` | TextRecognize.java:80-83 | the file reads back as the written entries, in any order, when keys hold no colon or newline and texts no newline |
| `ReportFile.FileRecoversOutputs` | TextRecognize.java:80-83 | written in any iteration order, the file reads back as `outputs` itself |
| `ReportFile.LinePerEntry` | TextRecognize.java:81-82 | the file holds exactly one newline per entry |
| `Pipeline.PublishedQueue` | CarRecognize.java:46-57 | when no key is "-1", the queue holds the car keys and then the sentinel iff the producer completed; its first sentinel sits right after the car keys |
| `Pipeline.DrainOfPublished` | TextRecognize.java:47-59 | on that queue the consumer reaches the sentinel iff the producer completed and more receives were answered than there are car keys, and it processes a prefix of the car keys |
| `Pipeline.RunPipeline` | TextRecognize.java:45-86 | producer then consumer: the consumer finishes iff the producer completed and more receives than car keys were answered, `outputs` reflects the car keys received so far, and a results file is written iff the consumer finished |
| `Pipeline.FinishedRecordsAllCars` | TextRecognize.java:47-73 | after finishing, `outputs` has exactly the car keys, each with the text of the last detectText call made for it |

## Left out

- The AWS clients, the region and the bucket name are left out: the services are parameters, and the queue service is an in-memory stand-in.
- Listing beyond the first page is left out. The source reads one page of up to 10 keys and never paginates.
- The label service's confidence filter (`withMinConfidence(90f)`) is left out. It is part of the request, so the model sees only the label names the service returns.
- The sleep itself is left out: the model records each delay in `delays` instead of waiting. An interrupted sleep (a RuntimeException) is left out too.
- The exception rethrown after the fifth failure is modelled as the verdict `GaveUp`. The producer's run then ends as `Aborted(key)`, which stands for the catch in `main`.
- The `Math.pow` double arithmetic is left out. For failures 1 to 4 it is the exact integer `2^r * 1000`, which is what the model computes.
- The logging (logger, System.out and the stack trace on IOException) is left out.
- The consumer's busy wait until a queue named `car.fifo` is listed is left out, and so is its own `getQueueUrl`. The model hands the queue object to the consumer directly.
- The endless receive loop is left out: the model runs over a finite schedule and reports whether the sentinel was reached.
- Queue service behaviour beyond FIFO order is left out: content-based deduplication, visibility timeouts, redelivery, and a second producer sharing the queue.
- A race between two producers creating the queue is left out. The stand-in registry is only touched by one program at a time.
- Failures of listObjectsV2, createQueue, detectText, sendMessage, receiveMessage and deleteMessage are left out. The modelled failures are the label check's and the queue look-up's.
- ProcessBucketImages: the sends go to the `FifoQueue` object passed in, not through the url the registry returns. The model does not tie that object to the registry entry for `car.fifo`, so it does not capture that a newly created queue starts empty; every send is stated relative to whatever the queue held before.
- CreateQueue on a name that already exists returns the registered url. The service's error for an existing queue with different attributes is left out; the producer always passes the FIFO attributes.
- Writing the file (FileWriter) and the IOException path are left out. `WriteResults` returns the file contents.
- HashMap iteration order is left out. `EntryOrder` picks some order that visits every key once, and every property is proved for any such order.
- Producer and consumer running at the same time is left out. `RunPipeline` runs the producer to its end and then the consumer.
- In the source, the consumer breaks out of the loop on the sentinel before `deleteMessage`. The sentinel therefore stays in the queue, and the model follows that.
- In the source, the text for an image is each WORD followed by a space, so `"STOP"` is recorded as `"STOP "` and written as the line `a.jpg: STOP ` plus the newline. The model keeps that trailing space.
- Nothing in the source stops a bucket key from being `"-1"`. Such a key would be taken for the sentinel, so the end-to-end members require that no bucket key is `"-1"`.
