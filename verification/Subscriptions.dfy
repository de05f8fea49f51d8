/** The subscription registry of the WebSocket endpoint: two dictionaries that
    index one relation in both directions. */
module Subscriptions {

  type Index = map<string, set<string>>

  predicate Has(m: Index, key: string, value: string) {
    key in m && value in m[key]
  }

  function At(m: Index, key: string): set<string> {
    if key in m then m[key] else {}
  }

  /** `d.setdefault(key, set()).add(value)`. */
  function Added(m: Index, key: string, value: string): Index {
    m[key := At(m, key) + {value}]
  }

  /** `value` discarded from the set of `key`, which goes when it gets empty. */
  function Dropped(m: Index, key: string, value: string): Index {
    if key !in m then m
    else if m[key] - {value} == {} then m - {key}
    else m[key := m[key] - {value}]
  }

  /** Both index the same relation. */
  ghost predicate Inverse(channelsOf: Index, subscribersOf: Index) {
    forall c: string, ch: string :: Has(channelsOf, c, ch) <==> Has(subscribersOf, ch, c)
  }

  /** No key without a name or without a value. */
  ghost predicate Tight(m: Index) {
    forall k | k in m :: k != "" && m[k] != {}
  }

  lemma AddedHas(m: Index, key: string, value: string)
    ensures forall k: string, v: string :: Has(Added(m, key, value), k, v) <==> Has(m, k, v) || (k == key && v == value)
    ensures Tight(m) && key != "" ==> Tight(Added(m, key, value))
    ensures Added(m, key, value).Keys == m.Keys + {key}
  {
  }

  lemma DroppedHas(m: Index, key: string, value: string)
    ensures forall k: string, v: string :: Has(Dropped(m, key, value), k, v) <==> Has(m, k, v) && !(k == key && v == value)
    ensures Tight(m) ==> Tight(Dropped(m, key, value))
  {
    if key in m && m[key] - {value} == {} {
      var rest := m[key] - {value};
      forall v | v in m[key] ensures v == value || v in rest {
      }
    }
  }

  lemma RemovedHas(m: Index, key: string)
    ensures forall k: string, v: string :: Has(m - {key}, k, v) <==> Has(m, k, v) && k != key
  {
  }

  lemma UnregisterInverse(a: Index, b: Index, a': Index, b': Index, connection: string)
    requires Inverse(a, b)
    requires forall k: string, v: string :: Has(a', k, v) <==> Has(a, k, v) && k != connection
    requires forall k: string, v: string :: Has(b', k, v) <==> Has(b, k, v) && !(v == connection && k in At(a, connection))
    ensures Inverse(a', b')
  {
    forall c: string, ch: string ensures Has(a', c, ch) <==> Has(b', ch, c) {
      assert Has(a, c, ch) <==> Has(b, ch, c);
      assert Has(a, connection, ch) <==> ch in At(a, connection);
    }
  }

  class Registry {
    var channelsOf: Index      // _connection_subscriptions
    var subscribersOf: Index   // _channel_subscribers

    /** The relation the registry stands for, read off the connections. */
    ghost predicate Linked(connection: string, channel: string)
      reads this
    {
      Has(channelsOf, connection, channel)
    }

    ghost predicate Valid()
      reads this
    {
      Inverse(channelsOf, subscribersOf) && Tight(subscribersOf)
    }

    constructor ()
      ensures Valid() && channelsOf == map[] && subscribersOf == map[]
    {
      channelsOf, subscribersOf := map[], map[];
    }

    /** `register_connection`. */
    method Register(connection: string)
      requires Valid()
      modifies this`channelsOf
      ensures Valid()
      ensures forall c: string, ch: string :: Has(channelsOf, c, ch) <==> Has(old(channelsOf), c, ch)
      ensures channelsOf.Keys == old(channelsOf.Keys) + (if connection == "" then {} else {connection})
    {
      if connection != "" && connection !in channelsOf {
        channelsOf := channelsOf[connection := {}];
      }
    }

    /** `handle_subscribe`, its registry part: a call without a connection or
        without a channel records nothing. */
    method Subscribe(anonymous: bool, connection: string, channel: string)
      requires Valid()
      modifies this
      ensures Valid()
      ensures forall c: string, ch: string ::
                Has(channelsOf, c, ch)
                <==> Has(old(channelsOf), c, ch) || (!anonymous && channel != "" && c == connection && ch == channel)
      ensures channelsOf.Keys == old(channelsOf.Keys) + (if anonymous || channel == "" then {} else {connection})
    {
      if !anonymous && channel != "" {
        AddedHas(channelsOf, connection, channel);
        AddedHas(subscribersOf, channel, connection);
        hide Has, Added, Tight;
        channelsOf := Added(channelsOf, connection, channel);
        subscribersOf := Added(subscribersOf, channel, connection);
      }
    }

    /** `unregister_connection`: exactly the pairs of this connection go, and
        nobody else's. */
    method Unregister(connection: string)
      requires Valid()
      modifies this
      ensures Valid()
      ensures forall c: string, ch: string ::
                Has(channelsOf, c, ch) <==> Has(old(channelsOf), c, ch) && (connection == "" || c != connection)
      ensures channelsOf.Keys == old(channelsOf.Keys) - (if connection == "" then {} else {connection})
    {
      if connection == "" {
        return;
      }
      var channels := At(channelsOf, connection);
      ghost var before := subscribersOf;
      RemovedHas(channelsOf, connection);
      channelsOf := channelsOf - {connection};
      var todo := channels;
      while todo != {}
        invariant todo <= channels && Tight(subscribersOf) && channelsOf == old(channelsOf) - {connection}
        invariant forall ch: string, c: string ::
                    Has(subscribersOf, ch, c) <==> Has(before, ch, c) && !(c == connection && ch in channels - todo)
      {
        var ch :| ch in todo;
        DroppedHas(subscribersOf, ch, connection);
        subscribersOf := Dropped(subscribersOf, ch, connection);
        todo := todo - {ch};
      }
      assert channels - todo == channels;
      UnregisterInverse(old(channelsOf), before, channelsOf, subscribersOf, connection);
    }

    /** `get_subscribers`. */
    method GetSubscribers(channel: string) returns (r: set<string>)
      requires Valid()
      ensures forall c: string :: c in r <==> Linked(c, channel)
    {
      r := if channel == "" then {} else At(subscribersOf, channel);
      forall c: string ensures c in r <==> Linked(c, channel) {
        assert Has(channelsOf, c, channel) <==> Has(subscribersOf, channel, c);
      }
    }

    /** `is_subscribed`: the relation, except that it denies the empty id. */
    method IsSubscribed(connection: string, channel: string) returns (r: bool)
      requires Valid()
      ensures r <==> connection != "" && Linked(connection, channel)
    {
      r := connection != "" && channel != "" && channel in At(channelsOf, connection);
      assert Has(channelsOf, connection, channel) <==> Has(subscribersOf, channel, connection);
    }
  }
}
