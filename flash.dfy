/** One-shot flash messages kept in the client's HTTP session (Main.java,
    setFlashMessage / getFlashMessage / captureFlashMessage). */
module Flash {
  import opened Wrappers

  const FlashMessageKey: string := "flash-message"

  /** A session's attributes; every attribute this core stores is a string. */
  type Session = map<string, string>

  /** The part of a request the messenger uses: its session, None until one is created. */
  class Request {
    var session: Option<Session>

    constructor (session: Option<Session>)
      ensures this.session == session
    {
      this.session := session;
    }
  }

  /** Reads the pending message, if any, without creating a session or changing it. */
  function GetFlashMessage(req: Request): (message: Option<string>)
    reads req
    ensures message.Some? <==> req.session.Some? && FlashMessageKey in req.session.value
    ensures message.Some? ==> message.value == req.session.value[FlashMessageKey]
  {
    match req.session
    case None => None
    case Some(attributes) =>
      if FlashMessageKey !in attributes then None else Some(attributes[FlashMessageKey])
  }

  /** `req.session()` creates the session when there is none; the message then
      replaces any message already pending. */
  method SetFlashMessage(req: Request, message: string)
    modifies req
    ensures req.session.Some?
    ensures req.session.value == old(if req.session.Some? then req.session.value else map[])[FlashMessageKey := message]
    // Follows from the line above; stated for the reader: the message is now pending.
    ensures GetFlashMessage(req) == Some(message)
  {
    var attributes := if req.session.Some? then req.session.value else map[];
    req.session := Some(attributes[FlashMessageKey := message]);
  }

  /** Returns the pending message and removes that one attribute, so it is delivered once;
      with no session or no message, nothing is created or changed. */
  method CaptureFlashMessage(req: Request) returns (message: Option<string>)
    modifies req
    ensures message == old(GetFlashMessage(req))
    ensures message.None? ==> req.session == old(req.session)
    ensures message.Some? ==> req.session == Some(old(req.session.value) - {FlashMessageKey})
    ensures GetFlashMessage(req) == None
  {
    message := GetFlashMessage(req);
    if message.Some? {
      req.session := Some(req.session.value - {FlashMessageKey});
    }
  }

  /** Set, then capture twice: the first capture delivers the message, the second finds
      none; the session is left holding exactly its old attributes (or none) without the key. */
  method DeliveredOnce(req: Request, message: string) returns (first: Option<string>, second: Option<string>)
    modifies req
    ensures first == Some(message) && second == None
    ensures req.session == Some(old(if req.session.Some? then req.session.value else map[]) - {FlashMessageKey})
  {
    var attributes := if req.session.Some? then req.session.value else map[];
    SetFlashMessage(req, message);
    first := CaptureFlashMessage(req);
    // Setting the key and then removing it leaves the other attributes as they were.
    assert attributes[FlashMessageKey := message] - {FlashMessageKey} == attributes - {FlashMessageKey};
    second := CaptureFlashMessage(req);
  }
}
