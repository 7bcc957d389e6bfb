/**
 * `serialize_message` and `send_to_sqs`: before a message is queued, a
 * `datetime` under `pub_date` is replaced, in the caller's dict, by its
 * ISO 8601 text; every other entry is left alone. Sending is a trace of one
 * queue send per message, in order.
 */
module Serializer {
  import opened Wrappers
  import opened Calendar
  import Iso8601
  import opened Feed
  import Numerals

  /** A Python `datetime` is always a valid value; a message whose `pub_date` is one says so. */
  predicate StampValid(m: Article)
  {
    PubDateKey in m && m[PubDateKey].Stamp? ==> Valid(m[PubDateKey].t)
  }

  /** `pub_date` is absent or already a `datetime`: the shape of every article `process_feed` emits. */
  predicate Unserialized(m: Article)
  {
    PubDateKey in m ==> m[PubDateKey].Stamp?
  }

  /** No `datetime` is left under `pub_date`. */
  predicate Serial(m: Article)
  {
    PubDateKey in m ==> !m[PubDateKey].Stamp?
  }

  /**
   * The dict after `serialize_message`: the same keys, a `datetime` under
   * `pub_date` replaced by its `isoformat()`, every other entry unchanged.
   */
  function Serialized(m: Article): Article
    requires StampValid(m)
  {
    if PubDateKey in m && m[PubDateKey].Stamp? then m[PubDateKey := Str(Iso8601.Format(m[PubDateKey].t))] else m
  }

  /**
   * What serialising does to each entry: the keys stay, a `datetime` under
   * `pub_date` becomes its ISO 8601 text, every other entry is unchanged,
   * and no `datetime` is left.
   */
  lemma SerializedEntries(m: Article)
    requires StampValid(m)
    ensures Serialized(m).Keys == m.Keys
    ensures forall k :: k in m && k != PubDateKey ==> Serialized(m)[k] == m[k]
    ensures PubDateKey in m && m[PubDateKey].Stamp? ==> Serialized(m)[PubDateKey] == Str(Iso8601.Format(m[PubDateKey].t))
    ensures PubDateKey in m && !m[PubDateKey].Stamp? ==> Serialized(m)[PubDateKey] == m[PubDateKey]
    ensures Serial(Serialized(m))
  {
  }

  /** A message already free of `datetime`s, in particular one without `pub_date`, is returned as it is. */
  lemma SerializedOfSerial(m: Article)
    requires Serial(m)
    ensures StampValid(m) && Serialized(m) == m
  {
  }

  /** Serialising twice is serialising once. */
  lemma SerializeIdempotent(m: Article)
    requires StampValid(m)
    ensures StampValid(Serialized(m)) && Serialized(Serialized(m)) == Serialized(m)
  {
    SerializedEntries(m);
    SerializedOfSerial(Serialized(m));
  }

  /** Reads the ISO 8601 text under `pub_date` back into a `datetime`: the inverse of serialising. */
  function Restored(m: Article): (r: Article)
    ensures r.Keys == m.Keys
    ensures forall k :: k in m && k != PubDateKey ==> r[k] == m[k]
  {
    if PubDateKey in m && m[PubDateKey].Str? && Iso8601.Parse(m[PubDateKey].s).Some?
    then m[PubDateKey := Stamp(Iso8601.Parse(m[PubDateKey].s).value)]
    else m
  }

  /** Nothing is lost: the queued message determines the article, `datetime` included. */
  lemma RestoreSerialized(m: Article)
    requires StampValid(m) && Unserialized(m)
    ensures Restored(Serialized(m)) == m
  {
    if PubDateKey in m {
      Iso8601.ParseFormat(m[PubDateKey].t);
    }
  }

  /** Two articles of the emitted shape that serialise alike are equal. */
  lemma SerializedInjective(a: Article, b: Article)
    requires StampValid(a) && Unserialized(a) && StampValid(b) && Unserialized(b)
    requires Serialized(a) == Serialized(b)
    ensures a == b
  {
    RestoreSerialized(a);
    RestoreSerialized(b);
  }

  /** Every article `process_feed` emits has the unserialised shape with a valid `datetime`. */
  lemma {:induction false} ExtractedUnserialized(items: seq<Item>, start: DateTime, end: DateTime, k: nat)
    requires Valid(start) && Valid(end) && k < |Extract(items, start, end)|
    ensures StampValid(Extract(items, start, end)[k]) && Unserialized(Extract(items, start, end)[k])
  {
    EmittedArticles(items, start, end, k);
  }

  /** The example message of the test suite: midnight, 1 January 2024, UTC. */
  lemma IsoExample()
    ensures Iso8601.Format(DateTime(2024, 1, 1, 0, 0, 0, Some(0))) == "2024-01-01T00:00:00+00:00"
  {
    var t := DateTime(2024, 1, 1, 0, 0, 0, Some(0));
    Numerals.PadExamples();
    assert Iso8601.OffsetSuffix(t.offset) == "+" + "00" + ":" + "00" == "+00:00";
    assert Iso8601.CivilText(t) == "2024" + "-" + "01" + "-" + "01" + "T" + "00" + ":" + "00" + ":" + "00";
    assert "2024" + "-" + "01" + "-" + "01" + "T" + "00" + ":" + "00" + ":" + "00" == "2024-01-01T00:00:00";
  }

  /** A message dict, which `serialize_message` updates in place and returns. */
  class Message {
    var fields: Article

    constructor (fields: Article)
      ensures this.fields == fields
    {
      this.fields := fields;
    }
  }

  /** `serialize_message(message)`: overwrites `pub_date` in the caller's dict and returns that same dict. */
  method SerializeMessage(message: Message) returns (r: Message)
    requires StampValid(message.fields)
    modifies message
    ensures r == message
    ensures message.fields == Serialized(old(message.fields))
  {
    if PubDateKey in message.fields && message.fields[PubDateKey].Stamp? {
      message.fields := message.fields[PubDateKey := Str(Iso8601.Format(message.fields[PubDateKey].t))];
    }
    r := message;
  }

  /** Every message of a batch holds a valid `datetime`, if any. */
  predicate AllStampValid(xs: seq<Article>)
  {
    forall j :: 0 <= j < |xs| ==> StampValid(xs[j])
  }

  /** Each message of a batch serialised, in order. */
  function SerializedAll(xs: seq<Article>): (r: seq<Article>)
    requires AllStampValid(xs)
    ensures |r| == |xs|
  {
    if xs == [] then [] else SerializedAll(xs[..|xs| - 1]) + [Serialized(xs[|xs| - 1])]
  }

  /** Entry `j` of the serialised batch is message `j` serialised. */
  lemma {:induction false} SerializedAllAt(xs: seq<Article>, j: nat)
    requires AllStampValid(xs) && j < |xs|
    ensures |SerializedAll(xs)| == |xs| && SerializedAll(xs)[j] == Serialized(xs[j])
    decreases |xs|
  {
    var n := |xs| - 1;
    assert AllStampValid(xs[..n]) by {
      forall k | 0 <= k < n ensures StampValid(xs[..n][k]) {
        assert xs[..n][k] == xs[k];
      }
    }
    if j < n {
      SerializedAllAt(xs[..n], j);
      assert xs[..n][j] == xs[j];
    } else if n > 0 {
      SerializedAllAt(xs[..n], 0);
    }
  }

  /** A batch that comes out of serialisation is unchanged by serialising it again. */
  lemma SerializedAllIdempotent(xs: seq<Article>)
    requires AllStampValid(xs)
    ensures AllStampValid(SerializedAll(xs)) && SerializedAll(SerializedAll(xs)) == SerializedAll(xs)
  {
    var ys := SerializedAll(xs);
    if xs != [] {
      SerializedAllAt(xs, 0);
    }
    forall j | 0 <= j < |ys| ensures StampValid(ys[j]) && Serialized(ys[j]) == ys[j] {
      SerializedAllAt(xs, j);
      SerializeIdempotent(xs[j]);
    }
    if ys != [] {
      SerializedAllAt(ys, 0);
    }
    forall j | 0 <= j < |ys| ensures SerializedAll(ys)[j] == ys[j] {
      SerializedAllAt(ys, j);
    }
  }

  /** The dicts a list of messages currently holds. */
  function Fields(ms: seq<Message>): (r: seq<Article>)
    reads set m | m in ms
    ensures |r| == |ms| && forall j :: 0 <= j < |ms| ==> r[j] == ms[j].fields
  {
    seq(|ms|, j requires 0 <= j < |ms| reads ms => ms[j].fields)
  }

  /** A dict seen so far by the send loop: not yet serialised, or serialised once. */
  predicate SoFar(orig: Article, current: Article)
  {
    StampValid(orig) && (current == orig || current == Serialized(orig))
  }

  /** Serialising a dict the loop has already serialised gives what serialising the original gave. */
  lemma SerializeAgain(orig: Article, current: Article)
    requires SoFar(orig, current)
    ensures StampValid(current) && Serialized(current) == Serialized(orig)
  {
    SerializeIdempotent(orig);
  }

  /** One `sqs.send_message` call: the queue and the body (before JSON encoding). */
  datatype Send = Send(queueUrl: string, body: Article)

  /**
   * The loop of `send_to_sqs`: one send per message, in order, each body the
   * serialised message, and every dict left serialised. A dict listed twice is
   * serialised twice, which changes nothing the second time, so every body is
   * the serialised original.
   */
  method SendAll(queueUrl: string, messages: seq<Message>) returns (sent: seq<Send>)
    requires AllStampValid(Fields(messages))
    modifies set m | m in messages
    ensures |sent| == |messages|
    ensures forall j :: 0 <= j < |messages| ==> sent[j] == Send(queueUrl, SerializedAll(old(Fields(messages)))[j])
    ensures Fields(messages) == SerializedAll(old(Fields(messages)))
  {
    ghost var orig := Fields(messages);
    ghost var target := SerializedAll(orig);
    forall j | 0 <= j < |orig| ensures target[j] == Serialized(orig[j]) {
      SerializedAllAt(orig, j);
    }
    sent := [];
    for i := 0 to |messages|
      invariant |sent| == i
      invariant forall j :: 0 <= j < |messages| ==> SoFar(orig[j], messages[j].fields)
      invariant forall j :: 0 <= j < i ==> messages[j].fields == target[j]
      invariant forall j :: 0 <= j < i ==> sent[j] == Send(queueUrl, target[j])
    {
      var m := messages[i];
      SerializeAgain(orig[i], m.fields);
      label before:
      var serialized := SerializeMessage(m);
      forall j | 0 <= j < |messages|
        ensures SoFar(orig[j], messages[j].fields)
        ensures j <= i ==> messages[j].fields == target[j]
      {
        if messages[j] != m {
          assert messages[j].fields == old@before(messages[j].fields);
        }
      }
      assert serialized.fields == target[i];
      ghost var prev := sent;
      sent := sent + [Send(queueUrl, serialized.fields)];
      assert forall j :: 0 <= j < i ==> sent[j] == prev[j];
    }
  }
}
