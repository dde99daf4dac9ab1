/** The Socket.IO server object (`req.app.get('io')`) as seen by the route
    handlers: `io.emit(topic, payload)` sends to every connected socket. The
    model records the emitted messages in order; transport, connections and
    delivery are not modelled here (see module App for the fan-out sets). */
module Realtime {
  import Db

  datatype Payload =
    | BookingPayload(booking: Db.BookingRow)
    | EventPayload(event: Db.EventView)

  datatype Emission = Emission(topic: string, payload: Payload)

  const BookingUpdate: string := "booking-update"
  const EventUpdate: string := "event-update"

  class Io {
    var emitted: seq<Emission>

    constructor ()
      ensures emitted == []
    {
      emitted := [];
    }

    method Emit(topic: string, payload: Payload)
      modifies this
      ensures emitted == old(emitted) + [Emission(topic, payload)]
    {
      emitted := emitted + [Emission(topic, payload)];
    }
  }
}
