/** The change consumer: parse, drop what this connection has seen, hand the rest to the server. */
module Replay {
  import opened Canvas
  import opened Bytes
  import opened ChangeStream
  import opened Services

  class StreamConsumer {
    const sink: Service
    var seen: set<nat>  // transfer ids since the connection was made

    constructor (sink: Service)
      ensures this.sink == sink && seen == {}
    {
      this.sink := sink;
      seen := {};
    }

    /** A new connection starts with nothing seen. */
    method Reconnect()
      modifies this
      ensures seen == {}
    {
      seen := {};
    }

    /** One message body, already parsed unless it was malformed. */
    method ProcessBody(body: Option<Event>) returns (broadcast: bool)
      requires sink.Valid()
      requires body.Some? && body.value.transferId !in seen ==>
                 body.value.timestamp < U63 && ChangeStream.ApplyEvent(sink.View(), body.value, sink.g).0.bmp in sink.run
      modifies this, sink, sink.ag, sink.sidecar
      ensures sink.Valid() && sink.ag == old(sink.ag) && (old(sink.Mirrored()) ==> sink.Mirrored())
      ensures body.None? ==> sink.View() == old(sink.View()) && seen == old(seen) && !broadcast
      ensures body.Some? && body.value.transferId in old(seen) ==>
                sink.View() == old(sink.View()) && seen == old(seen) && !broadcast
      ensures body.Some? && body.value.transferId !in old(seen) ==>
                && seen == old(seen) + {body.value.transferId}
                && (sink.View(), broadcast) == ChangeStream.ApplyEvent(old(sink.View()), body.value, sink.g)
      ensures body.Some? ==>
                var before := Consumer(old(sink.View()), old(seen), 0, []);
                var after := ChangeStream.ProcessBody(before, body.value, sink.g);
                && (sink.View(), seen) == (after.cache, after.seen)
                && after.broadcasts == if broadcast then [body.value] else []
    {
      if body.None? {
        return false;
      }
      var ev := body.value;
      if ev.transferId in seen {
        return false;
      }
      seen := seen + {ev.transferId};
      broadcast := sink.ApplyEvent(ev);
    }
  }
}
