/** The message-handling contract of an endpoint and its type-erased
    adapter. A Service is seen through its three operations, each a function
    of its arguments (whatever state the service keeps is folded into them);
    the role's payload shapes and the error type are type parameters. */
module Services {
  import opened Model

  /** The context handed to handle_request: the identifier of the request
      being served. (The source's role marker is zero-sized and carries no
      value.) */
  datatype RequestContext = RequestContext(requestId: RequestId)

  /** Two contexts that name the same request are the same context. This
      holds by construction: the request identifier is the record's only
      field. (The Rust struct derives no equality; `==` here is Dafny's
      structural equality on the model.) */
  lemma ContextIsItsRequestId(a: RequestContext, b: RequestContext)
    ensures a == b <==> a.requestId == b.requestId
  {
  }

  /** A Service: handle a peer request, handle a peer notification, report
      this endpoint's info. The results are what the returned futures
      resolve to. */
  datatype Service<!PeerReq, Resp, !PeerNot, Info, Error> = Service(
    handleRequest: (PeerReq, RequestContext) -> Result<Resp, Error>,
    handleNotification: PeerNot -> Result<(), Error>,
    getInfo: () -> Info)

  /** A heap-allocated future (BoxFuture) that resolves to `output`. */
  datatype BoxFuture<T> = BoxFuture(output: T)

  /** A DynService: the same three operations, the two handlers returning
      boxed futures. */
  datatype DynService<!PeerReq, Resp, !PeerNot, Info, Error> = DynService(
    handleRequest: (PeerReq, RequestContext) -> BoxFuture<Result<Resp, Error>>,
    handleNotification: PeerNot -> BoxFuture<Result<(), Error>>,
    getInfo: () -> Info)

  /** The blanket impl of DynService for every Service: each operation boxes
      the wrapped service's own. Request and notification payloads are
      plain values (`!new`): they hold no references to the heap. */
  function AsDynService<PeerReq(!new), Resp, PeerNot(!new), Info, Error>(
    s: Service<PeerReq, Resp, PeerNot, Info, Error>): (d: DynService<PeerReq, Resp, PeerNot, Info, Error>)
    ensures forall request, context :: d.handleRequest(request, context).output == s.handleRequest(request, context)
    ensures forall notification :: d.handleNotification(notification).output == s.handleNotification(notification)
    ensures d.getInfo() == s.getInfo()
  {
    DynService(
      (request, context) => BoxFuture(s.handleRequest(request, context)),
      notification => BoxFuture(s.handleNotification(notification)),
      () => s.getInfo())
  }

  /** Calling a service through its DynService resolves to exactly what
      calling it directly returns, success or error, for the same request
      and context, the same notification, and for its info. */
  lemma DynServiceIsTransparent<PeerReq(!new), Resp, PeerNot(!new), Info, Error>(
    s: Service<PeerReq, Resp, PeerNot, Info, Error>,
    request: PeerReq, context: RequestContext, notification: PeerNot)
    ensures AsDynService(s).handleRequest(request, context).output == s.handleRequest(request, context)
    ensures AsDynService(s).handleNotification(notification).output == s.handleNotification(notification)
    ensures AsDynService(s).getInfo() == s.getInfo()
  {
  }
}
