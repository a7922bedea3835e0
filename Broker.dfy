/**
 * The example broker: a set of connected clients and a registry of subscriptions, each a
 * (topic filter, connection, QoS) triple. The registry is kept in insertion order; the
 * broker's index by topic is ordered and non-unique, so the subscriptions to one topic are
 * met in the order they were made, and that is the order in which a PUBLISH is forwarded.
 * Topics are matched by equality; the broker has no wildcards.
 */
module Broker {
  import opened Wire
  import opened Parsers

  /** A connection, identified by the endpoint it belongs to. */
  type ConId = nat

  /** A topic name or filter, as its bytes. */
  type Topic = seq<Byte>

  /** One entry of the registry. */
  datatype Subscription = Subscription(topic: Topic, con: ConId, qos: nat)

  /** CONNACK return code 0, "Connection Accepted" (section 3.2.2.3 of MQTT 3.1.1). */
  const Accepted: nat := 0

  /** What the broker writes on its connections. */
  datatype Outbound =
    | ConnackOut(con: ConId, sessionPresent: bool, returnCode: nat)
    | SubackOut(con: ConId, packetId: U16, returnCodes: seq<nat>)
    | UnsubackOut(con: ConId, packetId: U16)
    | Deliver(con: ConId, topic: Topic, contents: seq<Byte>, qos: nat, retain: bool)

  /** `std::min` on the two QoS levels. */
  function MinQos(a: nat, b: nat): (q: nat)
    ensures q <= a && q <= b && (q == a || q == b)
  {
    if b < a then b else a
  }

  /** Which registry entries a lookup or an erase on one of the broker's indexes concerns. */
  datatype Pick =
    | OfConnection(con: ConId)
    | ExceptConnection(con: ConId)
    | ToTopics(topics: seq<Topic>)
    | ExceptTopics(topics: seq<Topic>)

  predicate Picks(p: Pick, x: Subscription)
  {
    match p
    case OfConnection(c) => x.con == c
    case ExceptConnection(c) => x.con != c
    case ToTopics(ts) => x.topic in ts
    case ExceptTopics(ts) => x.topic !in ts
  }

  /** The entries `p` picks, in registry order. */
  function Select(subs: seq<Subscription>, p: Pick): (r: seq<Subscription>)
    ensures forall x :: x in r <==> x in subs && Picks(p, x)
  {
    if subs == [] then []
    else
      var last := subs[|subs| - 1];
      Select(subs[..|subs| - 1], p) + (if Picks(p, last) then [last] else [])
  }

  /** A pick that takes every subscription selects the whole registry. */
  lemma {:induction false} SelectAll(subs: seq<Subscription>, p: Pick)
    requires forall x :: Picks(p, x)
    ensures Select(subs, p) == subs
  {
    if subs != [] {
      var init := subs[..|subs| - 1];
      var last := subs[|subs| - 1];
      calc {
        Select(subs, p);
        { assert subs == init + [last]; }
        Select(init + [last], p);
        { SelectSnoc(init, p, last); assert Picks(p, last); }
        Select(init, p) + [last];
        { SelectAll(init, p); }
        init + [last];
      }
    }
  }

  /** Selecting from a sequence with one more subscription at the end. */
  lemma SelectSnoc(subs: seq<Subscription>, p: Pick, x: Subscription)
    ensures Select(subs + [x], p) == Select(subs, p) + (if Picks(p, x) then [x] else [])
  {
    var s := subs + [x];
    assert s[..|s| - 1] == subs && s[|s| - 1] == x;
  }

  /** Two selections in a row are the one selection of what both pick. */
  lemma {:induction false} SelectSelect(subs: seq<Subscription>, p: Pick, q: Pick, r: Pick)
    requires forall x :: Picks(r, x) <==> Picks(p, x) && Picks(q, x)
    ensures Select(Select(subs, p), q) == Select(subs, r)
  {
    if subs != [] {
      var init := subs[..|subs| - 1];
      var last := subs[|subs| - 1];
      SelectSelect(init, p, q, r);
      var once := Select(init, p);
      assert Picks(r, last) <==> Picks(p, last) && Picks(q, last);
      if Picks(p, last) {
        calc {
          Select(Select(subs, p), q);
          Select(once + [last], q);
          { SelectSnoc(once, q, last); }
          Select(once, q) + (if Picks(q, last) then [last] else []);
        }
      } else {
        assert Select(subs, p) == once;
      }
    }
  }

  /** What a SUBSCRIBE from `con` adds to the registry: one triple per entry, in order. */
  function Registrations(con: ConId, entries: seq<SubscribeEntry>): (r: seq<Subscription>)
    ensures |r| == |entries|
    ensures forall x :: x in r ==> x.con == con
    ensures forall i :: 0 <= i < |r| ==> r[i] == Subscription(entries[i].topicFilter, con, entries[i].qos)
  {
    if entries == [] then []
    else
      var last := entries[|entries| - 1];
      Registrations(con, entries[..|entries| - 1]) + [Subscription(last.topicFilter, con, last.qos)]
  }

  /** The SUBACK return codes of a SUBACK that grants every requested QoS. */
  function GrantedQos(entries: seq<SubscribeEntry>): (r: seq<nat>)
    ensures |r| == |entries|
    ensures forall i :: 0 <= i < |r| ==> r[i] == entries[i].qos
  {
    if entries == [] then [] else GrantedQos(entries[..|entries| - 1]) + [entries[|entries| - 1].qos]
  }

  /** `con` holds a subscription to `topic`. */
  predicate SubscribedTo(subs: seq<Subscription>, topic: Topic, con: ConId)
  {
    exists x :: x in subs && x.topic == topic && x.con == con
  }

  /**
   * What the broker forwards for a PUBLISH to `topic`: one delivery per subscription to that
   * topic, in registry order, at the smaller of the two QoS levels.
   */
  function Deliveries(subs: seq<Subscription>, topic: Topic, contents: seq<Byte>, qos: nat, retain: bool): seq<Outbound>
  {
    if subs == [] then []
    else
      var last := subs[|subs| - 1];
      Deliveries(subs[..|subs| - 1], topic, contents, qos, retain)
      + (if last.topic == topic then [Deliver(last.con, topic, contents, MinQos(last.qos, qos), retain)] else [])
  }

  /**
   * Every delivery carries the topic, contents and retain flag to a subscriber of the topic at
   * no more than the published QoS, and every subscriber of the topic gets one.
   */
  lemma {:induction false} DeliveriesMeaning(subs: seq<Subscription>, topic: Topic, contents: seq<Byte>, qos: nat, retain: bool)
    ensures var r := Deliveries(subs, topic, contents, qos, retain);
      forall d :: d in r ==> d.Deliver? && d.topic == topic && d.contents == contents && d.retain == retain && d.qos <= qos
    ensures var r := Deliveries(subs, topic, contents, qos, retain);
      forall d :: d in r ==> SubscribedTo(subs, topic, d.con)
    ensures var r := Deliveries(subs, topic, contents, qos, retain);
      forall x :: x in subs && x.topic == topic ==> Deliver(x.con, topic, contents, MinQos(x.qos, qos), retain) in r
  {
    if subs != [] {
      var init := subs[..|subs| - 1];
      var last := subs[|subs| - 1];
      DeliveriesMeaning(init, topic, contents, qos, retain);
      assert subs == init + [last];
      assert forall x :: x in subs ==> x in init || x == last;
    }
  }

  /** Delivering to a sequence with one more subscription at the end. */
  lemma DeliveriesSnoc(subs: seq<Subscription>, x: Subscription, topic: Topic, contents: seq<Byte>, qos: nat, retain: bool)
    ensures Deliveries(subs + [x], topic, contents, qos, retain)
      == Deliveries(subs, topic, contents, qos, retain)
         + (if x.topic == topic then [Deliver(x.con, topic, contents, MinQos(x.qos, qos), retain)] else [])
  {
    var s := subs + [x];
    assert s[..|s| - 1] == subs && s[|s| - 1] == x;
  }

  /** Exactly one delivery per subscription to the topic, in order, each to that subscriber. */
  lemma {:induction false} DeliveryPerSubscription(subs: seq<Subscription>, topic: Topic, contents: seq<Byte>, qos: nat, retain: bool)
    ensures var ds := Deliveries(subs, topic, contents, qos, retain);
      var ms := Select(subs, ToTopics([topic]));
      |ds| == |ms| && forall i :: 0 <= i < |ds| ==> ds[i].Deliver? && ds[i].con == ms[i].con && ds[i].qos == MinQos(ms[i].qos, qos)
  {
    if subs != [] {
      var init := subs[..|subs| - 1];
      var last := subs[|subs| - 1];
      DeliveryPerSubscription(init, topic, contents, qos, retain);
      assert Picks(ToTopics([topic]), last) <==> last.topic == topic;
    }
  }

  /** Closing a connection twice removes nothing more. */
  lemma CloseIdempotent(subs: seq<Subscription>, con: ConId)
    ensures Select(Select(subs, ExceptConnection(con)), ExceptConnection(con)) == Select(subs, ExceptConnection(con))
  {
    SelectSelect(subs, ExceptConnection(con), ExceptConnection(con), ExceptConnection(con));
  }

  /** Closing one connection leaves every other connection's subscriptions as they were, in order. */
  lemma CloseKeepsOthers(subs: seq<Subscription>, con: ConId, other: ConId)
    requires other != con
    ensures Select(Select(subs, ExceptConnection(con)), OfConnection(other)) == Select(subs, OfConnection(other))
  {
    SelectSelect(subs, ExceptConnection(con), OfConnection(other), OfConnection(other));
  }

  /** A closed connection receives nothing from any later PUBLISH. */
  lemma ClosedReceivesNothing(subs: seq<Subscription>, con: ConId, topic: Topic, contents: seq<Byte>, qos: nat, retain: bool)
    ensures forall d :: d in Deliveries(Select(subs, ExceptConnection(con)), topic, contents, qos, retain) ==> d.con != con
  {
    DeliveriesMeaning(Select(subs, ExceptConnection(con)), topic, contents, qos, retain);
  }

  /** After a SUBSCRIBE, each requested topic forwards to the subscriber at the granted level. */
  lemma SubscribedReceives(subs: seq<Subscription>, con: ConId, entries: seq<SubscribeEntry>, e: SubscribeEntry,
                           contents: seq<Byte>, qos: nat, retain: bool)
    requires e in entries
    ensures Deliver(con, e.topicFilter, contents, MinQos(e.qos, qos), retain)
      in Deliveries(subs + Registrations(con, entries), e.topicFilter, contents, qos, retain)
  {
    assert Subscription(e.topicFilter, con, e.qos) in subs + Registrations(con, entries);
    DeliveriesMeaning(subs + Registrations(con, entries), e.topicFilter, contents, qos, retain);
  }

  /**
   * The registry keeps duplicates: the same subscription made twice forwards each PUBLISH
   * twice.
   */
  lemma RepeatedSubscriptionDeliversTwice(subs: seq<Subscription>, x: Subscription, contents: seq<Byte>, qos: nat, retain: bool)
    ensures var d := Deliver(x.con, x.topic, contents, MinQos(x.qos, qos), retain);
      Deliveries(subs + [x, x], x.topic, contents, qos, retain) == Deliveries(subs, x.topic, contents, qos, retain) + [d, d]
  {
    var once := subs + [x];
    var twice := subs + [x, x];
    assert twice[..|twice| - 1] == once;
    assert once[..|once| - 1] == subs;
  }

  /** Unsubscribing from no topic changes nothing. */
  lemma UnsubscribeNothing(subs: seq<Subscription>)
    ensures Select(subs, ExceptTopics([])) == subs
  {
    SelectAll(subs, ExceptTopics([]));
  }

  /** Erasing the subscriptions to one more topic is unsubscribing from that topic too. */
  lemma UnsubscribeStep(subs: seq<Subscription>, topics: seq<Topic>, topic: Topic)
    ensures Select(Select(subs, ExceptTopics(topics)), ExceptTopics([topic])) == Select(subs, ExceptTopics(topics + [topic]))
  {
    SelectSelect(subs, ExceptTopics(topics), ExceptTopics([topic]), ExceptTopics(topics + [topic]));
  }

  /** Unsubscribing leaves the subscriptions to every other topic exactly as they were. */
  lemma UnsubscribeKeepsOtherTopics(subs: seq<Subscription>, topics: seq<Topic>, other: Topic)
    requires other !in topics
    ensures Select(Select(subs, ExceptTopics(topics)), ToTopics([other])) == Select(subs, ToTopics([other]))
  {
    SelectSelect(subs, ExceptTopics(topics), ToTopics([other]), ToTopics([other]));
  }

  /**
   * After an UNSUBSCRIBE, a PUBLISH to one of its topics reaches nobody, and a PUBLISH to any
   * other topic reaches exactly whom it reached before.
   */
  lemma {:induction false} UnsubscribeDeliveries(subs: seq<Subscription>, topics: seq<Topic>, topic: Topic,
                                                 contents: seq<Byte>, qos: nat, retain: bool)
    ensures Deliveries(Select(subs, ExceptTopics(topics)), topic, contents, qos, retain)
         == if topic in topics then [] else Deliveries(subs, topic, contents, qos, retain)
  {
    if subs != [] {
      var init := subs[..|subs| - 1];
      var last := subs[|subs| - 1];
      UnsubscribeDeliveries(init, topics, topic, contents, qos, retain);
      var kept := Select(init, ExceptTopics(topics));
      if Picks(ExceptTopics(topics), last) {
        assert Select(subs, ExceptTopics(topics)) == kept + [last];
        assert (kept + [last])[..|kept|] == kept;
      } else {
        assert Select(subs, ExceptTopics(topics)) == kept;
      }
    }
  }

  /**
   * One client's UNSUBSCRIBE takes away every other client's subscription to the same topic,
   * which section 3.10.4 of MQTT 3.1.1 confines to the subscriptions of the sender.
   */
  lemma UnsubscribeDropsOtherClients(topic: Topic)
    ensures var subs := [Subscription(topic, 1, 1), Subscription(topic, 2, 1)];
      && Select(subs, OfConnection(2)) == [Subscription(topic, 2, 1)]
      && Select(Select(subs, ExceptTopics([topic])), OfConnection(2)) == []
  {
    var subs := [Subscription(topic, 1, 1), Subscription(topic, 2, 1)];
    var first := subs[..1];
    assert first[..0] == [];
    assert Select(first, OfConnection(2)) == Select([], OfConnection(2)) == [];
    assert Select(subs, OfConnection(2)) == Select(first, OfConnection(2)) + [subs[1]];
    assert Select(first, ExceptTopics([topic])) == Select([], ExceptTopics([topic])) == [];
    assert Select(subs, ExceptTopics([topic])) == Select(first, ExceptTopics([topic])) == [];
  }

  /** The broker of the example server: its clients, its registry and what it has written. */
  class Broker {
    var connections: set<ConId>
    var subs: seq<Subscription>
    var out: seq<Outbound>

    constructor ()
      ensures connections == {} && subs == [] && out == []
    {
      connections := {};
      subs := [];
      out := [];
    }

    /** `close_proc`: forgets the connection and every subscription it holds. */
    method CloseProc(con: ConId)
      modifies this`connections, this`subs
      ensures connections == old(connections) - {con}
      ensures subs == Select(old(subs), ExceptConnection(con))
    {
      connections := connections - {con};
      subs := Select(subs, ExceptConnection(con));
    }

    /** The close handler. */
    method OnClose(con: ConId)
      modifies this`connections, this`subs
      ensures connections == old(connections) - {con}
      ensures subs == Select(old(subs), ExceptConnection(con))
    {
      CloseProc(con);
    }

    /** The error handler. */
    method OnError(con: ConId)
      modifies this`connections, this`subs
      ensures connections == old(connections) - {con}
      ensures subs == Select(old(subs), ExceptConnection(con))
    {
      CloseProc(con);
    }

    /** The DISCONNECT handler. */
    method OnDisconnect(con: ConId)
      modifies this`connections, this`subs
      ensures connections == old(connections) - {con}
      ensures subs == Select(old(subs), ExceptConnection(con))
    {
      CloseProc(con);
    }

    /** The CONNECT handler: accepts every client, without a session present, and reads on. */
    method OnConnect(con: ConId) returns (keepReading: bool)
      modifies this`connections, this`out
      ensures keepReading
      ensures connections == old(connections) + {con}
      ensures out == old(out) + [ConnackOut(con, false, Accepted)]
    {
      connections := connections + {con};
      out := out + [ConnackOut(con, false, Accepted)];
      keepReading := true;
    }

    /** The SUBSCRIBE handler: registers every entry and grants every requested QoS. */
    method OnSubscribe(con: ConId, packetId: U16, entries: seq<SubscribeEntry>) returns (keepReading: bool)
      modifies this`subs, this`out
      ensures keepReading
      ensures subs == old(subs) + Registrations(con, entries)
      ensures out == old(out) + [SubackOut(con, packetId, GrantedQos(entries))]
    {
      var res: seq<nat> := [];
      for i := 0 to |entries|
        invariant res == GrantedQos(entries[..i])
        invariant subs == old(subs) + Registrations(con, entries[..i])
        invariant out == old(out)
      {
        var e := entries[i];
        assert entries[..i + 1][..i] == entries[..i];
        res := res + [e.qos];
        subs := subs + [Subscription(e.topicFilter, con, e.qos)];
      }
      assert entries[..|entries|] == entries;
      out := out + [SubackOut(con, packetId, res)];
      keepReading := true;
    }

    /**
     * The UNSUBSCRIBE handler: `subs.erase(topic)` on the topic index, for each listed topic,
     * erases the subscriptions to that topic of every connection; UNSUBACK follows even when
     * nothing matched.
     */
    method OnUnsubscribe(con: ConId, packetId: U16, topics: seq<Topic>) returns (keepReading: bool)
      modifies this`subs, this`out
      ensures keepReading
      ensures subs == Select(old(subs), ExceptTopics(topics))
      ensures out == old(out) + [UnsubackOut(con, packetId)]
    {
      UnsubscribeNothing(subs);
      for i := 0 to |topics|
        invariant subs == Select(old(subs), ExceptTopics(topics[..i]))
        invariant out == old(out)
      {
        UnsubscribeStep(old(subs), topics[..i], topics[i]);
        assert topics[..i] + [topics[i]] == topics[..i + 1];
        subs := Select(subs, ExceptTopics([topics[i]]));
      }
      assert topics[..|topics|] == topics;
      out := out + [UnsubackOut(con, packetId)];
      keepReading := true;
    }

    /** The PUBLISH handler: forwards to every subscriber of the topic, in registry order. */
    method OnPublish(fixedHeader: Byte, topic: Topic, contents: seq<Byte>) returns (keepReading: bool)
      modifies this`out
      ensures keepReading
      ensures out == old(out) + Deliveries(subs, topic, contents, PublishQos(fixedHeader), IsRetain(fixedHeader))
    {
      var qos := PublishQos(fixedHeader);
      var retain := IsRetain(fixedHeader);
      var registry := subs;
      for i := 0 to |registry|
        invariant out == old(out) + Deliveries(registry[..i], topic, contents, qos, retain)
      {
        var x := registry[i];
        assert registry[..i + 1] == registry[..i] + [x];
        DeliveriesSnoc(registry[..i], x, topic, contents, qos, retain);
        if x.topic == topic {
          out := out + [Deliver(x.con, topic, contents, MinQos(x.qos, qos), retain)];
        }
      }
      assert registry[..|registry|] == registry;
      keepReading := true;
    }

    /** The PUBACK, PUBREC, PUBREL and PUBCOMP handlers change nothing and read on. */
    method OnAck(con: ConId, packetId: U16) returns (keepReading: bool)
      ensures keepReading
    {
      keepReading := true;
    }
  }
}
