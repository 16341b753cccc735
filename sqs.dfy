/** In-memory stand-ins for the two parts of the queue service the pipeline uses:
    the registry of named queues (look-up and create) and one FIFO queue
    (send, receive, delete). */
module Sqs {

  datatype Option<T> = None | Some(value: T)

  /** The body that ends the stream of work items. */
  const Sentinel := "-1"

  /** A message held by a FIFO queue. Its sequence number also serves as the
      receipt handle the consumer deletes it by. */
  datatype Message = Message(sequenceNumber: nat, groupId: string, body: string)

  function Bodies(ms: seq<Message>): (bs: seq<string>)
    ensures |bs| == |ms|
    ensures forall i :: 0 <= i < |ms| ==> bs[i] == ms[i].body
  {
    if ms == [] then [] else [ms[0].body] + Bodies(ms[1..])
  }

  lemma BodiesConcat(ms: seq<Message>, ns: seq<Message>)
    ensures Bodies(ms + ns) == Bodies(ms) + Bodies(ns)
  {
    assert forall i :: 0 <= i < |ms| ==> (ms + ns)[i] == ms[i];
    assert forall i :: 0 <= i < |ns| ==> (ms + ns)[|ms| + i] == ns[i];
  }

  /** Sequence numbers grow along the queue. */
  ghost predicate InOrder(ms: seq<Message>)
  {
    forall i, j :: 0 <= i < j < |ms| ==> ms[i].sequenceNumber < ms[j].sequenceNumber
  }

  /** The messages left after deleting the one with receipt handle `handle`. */
  function Without(ms: seq<Message>, handle: nat): (r: seq<Message>)
    ensures forall m :: m in r <==> m in ms && m.sequenceNumber != handle
  {
    if ms == [] then []
    else (if ms[0].sequenceNumber == handle then [] else [ms[0]]) + Without(ms[1..], handle)
  }

  /** The messages that deleting by receipt handle `handle` takes out of the queue. */
  function Removed(ms: seq<Message>, handle: nat): (r: seq<Message>)
    ensures forall m :: m in r <==> m in ms && m.sequenceNumber == handle
  {
    if ms == [] then []
    else (if ms[0].sequenceNumber == handle then [ms[0]] else []) + Removed(ms[1..], handle)
  }

  lemma {:induction false} WithoutAbsent(ms: seq<Message>, handle: nat)
    requires forall i :: 0 <= i < |ms| ==> ms[i].sequenceNumber != handle
    ensures Without(ms, handle) == ms
    ensures Removed(ms, handle) == []
  {
    if ms != [] {
      WithoutAbsent(ms[1..], handle);
    }
  }

  /** Deleting the head of an ordered queue by its handle removes the head and nothing else. */
  lemma WithoutHead(ms: seq<Message>)
    requires InOrder(ms) && ms != []
    ensures Without(ms, ms[0].sequenceNumber) == ms[1..]
    ensures Removed(ms, ms[0].sequenceNumber) == [ms[0]]
  {
    WithoutAbsent(ms[1..], ms[0].sequenceNumber);
  }

  /** One FIFO queue: the messages sent and not yet deleted, oldest first. */
  class FifoQueue {
    var messages: seq<Message>
    var nextSequenceNumber: nat
    /** The messages deleted so far, in the order they were deleted. */
    ghost var deleted: seq<Message>

    ghost predicate Valid()
      reads this
    {
      && InOrder(messages)
      && forall i :: 0 <= i < |messages| ==> messages[i].sequenceNumber < nextSequenceNumber
    }

    constructor ()
      ensures Valid() && messages == [] && nextSequenceNumber == 0 && deleted == []
    {
      messages, nextSequenceNumber, deleted := [], 0, [];
    }

    /** SendMessage: the message joins the end of the queue. */
    method SendMessage(groupId: string, body: string)
      requires Valid()
      modifies this
      ensures Valid()
      ensures messages == old(messages) + [Message(old(nextSequenceNumber), groupId, body)]
      ensures nextSequenceNumber == old(nextSequenceNumber) + 1
      ensures deleted == old(deleted)
    {
      messages := messages + [Message(nextSequenceNumber, groupId, body)];
      nextSequenceNumber := nextSequenceNumber + 1;
    }

    /** ReceiveMessage with at most one message: the oldest message, when the service
        `delivers` on this poll and the queue holds one. Receiving removes nothing. */
    method ReceiveMessage(delivers: bool) returns (received: Option<Message>)
      ensures received.Some? <==> delivers && messages != []
      ensures received.Some? ==> received.value == messages[0]
    {
      if delivers && messages != [] {
        received := Some(messages[0]);
      } else {
        received := None;
      }
    }

    /** DeleteMessage: the message with this receipt handle leaves the queue and
        joins the log of deleted messages. */
    method DeleteMessage(receiptHandle: nat)
      requires Valid()
      modifies this
      ensures Valid()
      ensures messages == Without(old(messages), receiptHandle)
      ensures nextSequenceNumber == old(nextSequenceNumber)
      ensures deleted == old(deleted) + Removed(old(messages), receiptHandle)
    {
      deleted := deleted + Removed(messages, receiptHandle);
      messages := Without(messages, receiptHandle);
      assert forall i :: 0 <= i < |messages| ==> messages[i] in old(messages);
      WithoutInOrder(old(messages), receiptHandle);
    }
  }

  lemma {:induction false} WithoutInOrder(ms: seq<Message>, handle: nat)
    requires InOrder(ms)
    ensures InOrder(Without(ms, handle))
  {
    if ms != [] {
      WithoutInOrder(ms[1..], handle);
      var rest := Without(ms[1..], handle);
      assert forall j :: 0 <= j < |rest| ==> rest[j] in ms[1..];
    }
  }

  /** The registry of named queues kept by the queue service. */
  class QueueRegistry {
    /** The prefix of every queue url the service hands out. */
    const endpoint: string
    /** Queue name to queue url. */
    var urls: map<string, string>
    /** Queue url to the attributes it was created with. */
    var attributes: map<string, map<string, string>>
    /** Names of the queues created, in order. */
    var created: seq<string>

    ghost predicate Valid()
      reads this
    {
      forall name :: name in urls ==> urls[name] in attributes
    }

    constructor (endpoint: string)
      ensures Valid() && this.endpoint == endpoint
      ensures urls == map[] && attributes == map[] && created == []
    {
      this.endpoint := endpoint;
      urls, attributes, created := map[], map[], [];
    }

    /** GetQueueUrl: the url of a registered queue. The service throws (None) for
        an unknown name, and also when the call itself fails (`fails`: throttling,
        a network error), whether or not the queue exists. */
    method GetQueueUrl(name: string, fails: bool) returns (url: Option<string>)
      ensures url.Some? <==> name in urls && !fails
      ensures url.Some? ==> url.value == urls[name]
    {
      if name in urls && !fails {
        url := Some(urls[name]);
      } else {
        url := None;
      }
    }

    /** CreateQueue: registers a new queue with the given attributes. For a name
        already registered it returns that queue's url and changes nothing. */
    method CreateQueue(name: string, attrs: map<string, string>) returns (url: string)
      requires Valid()
      modifies this
      ensures Valid()
      ensures name in old(urls) ==>
                && url == old(urls)[name]
                && urls == old(urls) && attributes == old(attributes) && created == old(created)
      ensures name !in old(urls) ==>
                && url == endpoint + "/" + name
                && urls == old(urls)[name := url]
                && attributes == old(attributes)[url := attrs]
                && created == old(created) + [name]
    {
      if name in urls {
        url := urls[name];
        return;
      }
      url := endpoint + "/" + name;
      urls := urls[name := url];
      attributes := attributes[url := attrs];
      created := created + [name];
    }
  }
}
