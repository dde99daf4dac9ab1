/** The Express application around the routes: the error-handling
    middleware, the fallback for unmatched routes, and the names under which
    the Socket.IO server relays client messages. */
module App {
  import opened Wrappers
  import Db
  import Realtime

  /** The JSON reply of the error middleware: a status, a message and the
      optional `error` detail. */
  datatype ErrorReply = ErrorReply(status: nat, message: string, detail: Option<string>)

  /** The Prisma error code an error carries, if any. */
  function PrismaCode(e: Db.DbError): (code: Option<string>)
    ensures e.UniqueViolation? <==> code == Some("P2002")
    ensures e.RecordNotFound? <==> code == Some("P2025")
  {
    match e
    case UniqueViolation => Some("P2002")
    case ForeignKeyViolation => Some("P2003")
    case RecordNotFound => Some("P2025")
    case StorageFault => None
  }

  /** The error middleware: P2002 is 409, P2025 is 404, anything else 500
      with the error's own message only when `NODE_ENV` is "development". */
  function HandleError(code: Option<string>, errorMessage: string, nodeEnv: Option<string>): (r: ErrorReply)
    ensures r.status in {404, 409, 500}
    ensures r.status == 409 <==> code == Some("P2002")
    ensures r.status == 404 <==> code == Some("P2025")
    ensures r.detail.Some? <==> r.status == 500 && nodeEnv == Some("development")
    ensures r.detail.Some? ==> r.detail.value == errorMessage
  {
    if code == Some("P2002") then ErrorReply(409, "A record with this already exists", None)
    else if code == Some("P2025") then ErrorReply(404, "Record not found", None)
    else ErrorReply(500, "Something went wrong!", if nodeEnv == Some("development") then Some(errorMessage) else None)
  }

  /** A store error reaching the middleware: a duplicate key is a conflict, a
      missing record a 404, and every other error is a 500 whose message is
      the same in every environment. */
  lemma StoreErrorsMapToStatus(e: Db.DbError, errorMessage: string, nodeEnv: Option<string>)
    ensures var r := HandleError(PrismaCode(e), errorMessage, nodeEnv);
      && (e.UniqueViolation? ==> r == ErrorReply(409, "A record with this already exists", None))
      && (e.RecordNotFound? ==> r == ErrorReply(404, "Record not found", None))
      && ((e.ForeignKeyViolation? || e.StorageFault?) ==> r.status == 500 && r.message == "Something went wrong!")
  {
  }

  datatype NotFoundReply = NotFoundReply(status: nat, message: string, path: string)

  /** `app.use('*', ...)`: 404 with the request's original URL. */
  function RouteNotFound(originalUrl: string): (r: NotFoundReply)
    ensures r.status == 404 && r.message == "Route not found"
    ensures r.path == originalUrl
  {
    NotFoundReply(404, "Route not found", originalUrl)
  }

  /** A relayed client message: the topic it goes out under and the sockets
      that receive it. */
  datatype Relayed = Relayed(topic: string, recipients: set<nat>)

  /** `socket.broadcast.emit`: a client's `event-updated` goes out as
      `event-update` and its `booking-created` as `booking-update`, to every
      other connected socket; other messages are not relayed. */
  function Relay(connections: set<nat>, sender: nat, incoming: string): (r: Option<Relayed>)
    ensures r.Some? <==> incoming == "event-updated" || incoming == "booking-created"
    ensures r.Some? ==> r.value.recipients == connections - {sender}
    ensures r.Some? ==> sender !in r.value.recipients
  {
    if incoming == "event-updated" then Some(Relayed(Realtime.EventUpdate, connections - {sender}))
    else if incoming == "booking-created" then Some(Relayed(Realtime.BookingUpdate, connections - {sender}))
    else None
  }

  /** A relayed message goes out under the same topic the route handlers emit
      for the same change, and every connected socket but the sender gets it. */
  lemma RelayUsesServerTopics(connections: set<nat>, sender: nat, socket: nat)
    ensures Relay(connections, sender, "event-updated").value.topic == Realtime.EventUpdate
    ensures Relay(connections, sender, "booking-created").value.topic == Realtime.BookingUpdate
    ensures socket in connections && socket != sender ==>
      socket in Relay(connections, sender, "event-updated").value.recipients
      && socket in Relay(connections, sender, "booking-created").value.recipients
  {
  }
}
